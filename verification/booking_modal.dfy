/** The client side of a booking (components/booking-modal.tsx): the stay
    length and price shown in the dialog, the checks made before a request is
    sent, and the JSON body that is sent. Dates are instants in milliseconds;
    the rendering of a date as `YYYY-MM-DD` is a parameter. */
module BookingModal {
  import opened Common
  import Text
  import Bookings

  /** 1000 * 60 * 60 * 24 */
  const MsPerDay := 86400000

  const SelectDatesMessage := "Please select check-in and check-out dates"
  const DateOrderMessage := "Check-out date must be after check-in date"

  /** `Math.ceil(x / d)` for a positive divisor: the least q with x <= q * d. */
  function CeilDiv(x: int, d: int): (q: int)
    requires d > 0
    ensures (q - 1) * d < x <= q * d
  {
    -((-x) / d)
  }

  /** `calculateNights`: 0 when a date is unset, otherwise the time between
      the dates in days, rounded up. */
  function Nights(checkIn: Option<int>, checkOut: Option<int>): (n: int)
    ensures checkIn.None? || checkOut.None? ==> n == 0
    ensures checkIn.Some? && checkOut.Some? ==>
      (n - 1) * MsPerDay < checkOut.value - checkIn.value <= n * MsPerDay
  {
    if checkIn.None? || checkOut.None? then 0
    else CeilDiv(checkOut.value - checkIn.value, MsPerDay)
  }

  /** At least one night is charged exactly when check-out is after
      check-in, even by a single millisecond. */
  lemma AtLeastOneNightIffOrdered(checkIn: int, checkOut: int)
    ensures Nights(Some(checkIn), Some(checkOut)) >= 1 <==> checkOut > checkIn
  {
    var n := Nights(Some(checkIn), Some(checkOut));
    if n >= 1 {
      assert (n - 1) * MsPerDay >= 0;
    }
    if n < 1 {
      assert n * MsPerDay <= 0;
    }
  }

  /** Whole days give exactly that many nights. */
  lemma WholeDays(checkIn: int, days: int)
    ensures Nights(Some(checkIn), Some(checkIn + days * MsPerDay)) == days
  {
    var n := Nights(Some(checkIn), Some(checkIn + days * MsPerDay));
    assert (n - 1) * MsPerDay < days * MsPerDay <= n * MsPerDay;
    assert (n - 1) * MsPerDay < days * MsPerDay ==> n - 1 < days;
    assert days * MsPerDay <= n * MsPerDay ==> days <= n;
  }

  /** `calculateTotal`: nights times the nightly rate, in cents. */
  function Total(checkIn: Option<int>, checkOut: Option<int>, pricePerNight: int): (t: int)
    ensures checkIn.None? || checkOut.None? ==> t == 0
    ensures checkIn.Some? && checkOut.Some? && checkOut.value <= checkIn.value && pricePerNight >= 0 ==> t <= 0
    ensures checkIn.Some? && checkOut.Some? && checkIn.value < checkOut.value && pricePerNight >= 0 ==> t >= pricePerNight
  {
    Nights(checkIn, checkOut) * pricePerNight
  }

  /** A stay of whole days costs that many nights at the nightly rate. */
  lemma TotalOfWholeDays(checkIn: int, days: int, pricePerNight: int)
    ensures Total(Some(checkIn), Some(checkIn + days * MsPerDay), pricePerNight) == days * pricePerNight
  {
    WholeDays(checkIn, days);
  }

  /** The guest counts offered by the select: 1 up to the room's maximum
      occupancy (none when that is not positive). */
  function GuestOptions(maxOccupancy: int): (r: seq<int>)
    ensures |r| == if maxOccupancy > 0 then maxOccupancy else 0
    ensures forall i :: 0 <= i < |r| ==> r[i] == i + 1
  {
    seq(if maxOccupancy > 0 then maxOccupancy else 0, i => i + 1)
  }

  lemma GuestOptionsAreOneToMax(maxOccupancy: int, g: int)
    ensures g in GuestOptions(maxOccupancy) <==> 1 <= g <= maxOccupancy
  {
    var r := GuestOptions(maxOccupancy);
    if 1 <= g <= maxOccupancy {
      assert r[g - 1] == g;
    }
  }

  /** The dialog's props. */
  datatype ModalProps = ModalProps(hotelId: int, roomId: int, pricePerNight: int, maxOccupancy: int)

  /** The dialog's state when the button is pressed. `session` is the signed-in
      user's id as text, None when nobody is signed in. */
  datatype ModalForm = ModalForm(
    session: Option<string>,
    checkIn: Option<int>,
    checkOut: Option<int>,
    guests: int,
    specialRequests: string)

  /** The JSON body sent to POST /api/bookings. `userId` is None when the
      session id does not parse (NaN is serialised as null). */
  datatype Payload = Payload(
    userId: Option<int>,
    hotelId: int,
    roomId: int,
    checkInDate: string,
    checkOutDate: string,
    guests: int,
    totalPrice: int,
    specialRequests: string)

  datatype SubmitOutcome = RedirectToSignIn | ShowError(message: string) | Send(payload: Payload)

  /** `handleBooking` up to the request: three guards in order, then the
      body. `format` renders an instant as the `YYYY-MM-DD` text. */
  function HandleBooking(props: ModalProps, form: ModalForm, format: int -> string): (r: SubmitOutcome)
    ensures r == RedirectToSignIn <==> form.session.None?
    ensures r == ShowError(SelectDatesMessage) <==>
      form.session.Some? && (form.checkIn.None? || form.checkOut.None?)
    ensures r == ShowError(DateOrderMessage) <==>
      form.session.Some? && form.checkIn.Some? && form.checkOut.Some? && form.checkOut.value <= form.checkIn.value
    ensures r.Send? <==> form.session.Some? && form.checkIn.Some? && form.checkOut.Some? && form.checkIn.value < form.checkOut.value
    ensures r.Send? ==>
      && Nights(form.checkIn, form.checkOut) >= 1
      && r.payload.totalPrice == Nights(form.checkIn, form.checkOut) * props.pricePerNight
      && r.payload.userId == Text.ParseInt(form.session.value)
      && r.payload.hotelId == props.hotelId && r.payload.roomId == props.roomId
      && r.payload.checkInDate == format(form.checkIn.value)
      && r.payload.checkOutDate == format(form.checkOut.value)
      && r.payload.guests == form.guests
      && r.payload.specialRequests == form.specialRequests
  {
    if form.session.None? then RedirectToSignIn
    else if form.checkIn.None? || form.checkOut.None? then ShowError(SelectDatesMessage)
    else
      AtLeastOneNightIffOrdered(form.checkIn.value, form.checkOut.value);
      if Nights(form.checkIn, form.checkOut) < 1 then ShowError(DateOrderMessage)
      else
        Send(Payload(
          Text.ParseInt(form.session.value),
          props.hotelId,
          props.roomId,
          format(form.checkIn.value),
          format(form.checkOut.value),
          form.guests,
          Total(form.checkIn, form.checkOut, props.pricePerNight),
          form.specialRequests))
  }

  /** The body as the server reads it. */
  function ToRequest(p: Payload): (req: Bookings.BookingRequest)
    ensures req.userId == p.userId && req.totalPrice == Some(p.totalPrice)
    ensures req.hotelId == Some(p.hotelId) && req.roomId == Some(p.roomId)
    ensures req.checkInDate == Some(p.checkInDate) && req.checkOutDate == Some(p.checkOutDate)
    ensures req.guests == Some(p.guests)
    ensures req.specialRequests == Some(p.specialRequests)
  {
    Bookings.BookingRequest(p.userId, Some(p.hotelId), Some(p.roomId), Some(p.checkInDate),
                            Some(p.checkOutDate), Some(p.guests), Some(p.totalPrice), Some(p.specialRequests))
  }

  /** A request the dialog sends for a signed-in user with a numeric id, a
      guest count from the select and a non-zero rate passes the server's
      required-field check: the total of at least one night is never 0. */
  lemma SentRequestHasRequiredFields(props: ModalProps, form: ModalForm, format: int -> string, uid: nat)
    requires form.session == Some(Text.NatToDecimal(uid)) && uid != 0
    requires props.hotelId != 0 && props.roomId != 0 && props.pricePerNight != 0
    requires form.guests in GuestOptions(props.maxOccupancy)
    requires form.checkIn.Some? && form.checkOut.Some? && form.checkIn.value < form.checkOut.value
    requires format(form.checkIn.value) != "" && format(form.checkOut.value) != ""
    ensures HandleBooking(props, form, format).Send?
    ensures Bookings.HasRequiredFields(ToRequest(HandleBooking(props, form, format).payload))
    ensures ToRequest(HandleBooking(props, form, format).payload).userId == Some(uid as int)
  {
    assert HandleBooking(props, form, format).Send?;
    var p := HandleBooking(props, form, format).payload;
    Text.ParseIntOfDecimal(uid);
    assert p.userId == Some(uid as int);
    GuestOptionsAreOneToMax(props.maxOccupancy, form.guests);
    assert p.guests != 0;
    assert p.checkInDate != "" && p.checkOutDate != "";
    NonZeroTotal(Nights(form.checkIn, form.checkOut), props.pricePerNight);
    assert p.totalPrice != 0;
    PayloadHasRequiredFields(p);
  }

  /** At least one night at a non-zero rate never costs 0. */
  lemma NonZeroTotal(nights: int, pricePerNight: int)
    requires nights >= 1 && pricePerNight != 0
    ensures nights * pricePerNight != 0
  {
    if pricePerNight > 0 {
      assert nights * pricePerNight >= pricePerNight;
    } else {
      assert nights * pricePerNight <= pricePerNight;
    }
  }

  /** The server's required-field check, read on the body the dialog sends. */
  lemma PayloadHasRequiredFields(p: Payload)
    requires p.userId.Some? && p.userId.value != 0
    requires p.hotelId != 0 && p.roomId != 0 && p.guests != 0 && p.totalPrice != 0
    requires p.checkInDate != "" && p.checkOutDate != ""
    ensures Bookings.HasRequiredFields(ToRequest(p))
  {
  }
}
