/** A venue's one-line address and an organiser's WhatsApp and Instagram
    links. */
module Places {
  import opened Common

  /** The address columns of `venues`, all nullable. */
  datatype Venue = Venue(address: Option<string>, addressNumber: Option<string>, addressComplement: Option<string>)

  /** The parts `full_address` joins: the street, then the number and the
      complement when they are truthy. */
  function AddressParts(v: Venue): (parts: seq<string>)
    requires Present(v.address)
    ensures 1 <= |parts| <= 3 && parts[0] == v.address.value
  {
    [v.address.value]
    + (if Present(v.addressNumber) then [v.addressNumber.value] else [])
    + (if Present(v.addressComplement) then [v.addressComplement.value] else [])
  }

  /** `full_address`: the parts pushed one by one, then joined. */
  method FullAddress(v: Venue) returns (r: Option<string>)
    ensures r.None? <==> !Present(v.address)
    ensures r.Some? ==> r.value == Join(AddressParts(v), ", ")
  {
    if !Present(v.address) {
      return None;
    }
    var parts := [v.address.value];
    if Present(v.addressNumber) {
      parts := parts + [v.addressNumber.value];
    }
    if Present(v.addressComplement) {
      parts := parts + [v.addressComplement.value];
    }
    assert parts == AddressParts(v);
    r := Some(Join(parts, ", "));
  }

  /** The address reads street, number, complement, with ", " only between
      parts present; without number and complement it is the street alone. */
  lemma FullAddressShape(v: Venue)
    requires Present(v.address)
    ensures Join(AddressParts(v), ", ") ==
      v.address.value
      + (if Present(v.addressNumber) then ", " + v.addressNumber.value else "")
      + (if Present(v.addressComplement) then ", " + v.addressComplement.value else "")
    ensures !Present(v.addressNumber) && !Present(v.addressComplement) ==> Join(AddressParts(v), ", ") == v.address.value
  {
    var a := v.address.value;
    var parts := AddressParts(v);
    if |parts| == 2 {
      assert Join(parts[1..], ", ") == parts[1];
    } else if |parts| == 3 {
      assert parts == [a, v.addressNumber.value, v.addressComplement.value];
      assert Join(parts[1..], ", ") == parts[1] + ", " + Join(parts[2..], ", ");
      assert Join(parts[2..], ", ") == parts[2];
    }
  }

  /** The organiser's contact columns, nullable. */
  datatype Organizer = Organizer(whatsapp: Option<string>, instagram: Option<string>)

  const WA_PREFIX: string := "https://wa.me/"
  const INSTAGRAM_PREFIX: string := "https://instagram.com/"

  /** `whatsapp_link`. */
  function WhatsappLink(o: Organizer): (link: Option<string>)
    ensures link.None? <==> !Present(o.whatsapp)
    ensures link.Some? ==> |link.value| >= |WA_PREFIX| && link.value[..|WA_PREFIX|] == WA_PREFIX && AllDigits(link.value[|WA_PREFIX|..])
  {
    if !Present(o.whatsapp) then None else Some(WA_PREFIX + DigitsOf(o.whatsapp.value))
  }

  /** `instagram_link`. */
  function InstagramLink(o: Organizer): (link: Option<string>)
    ensures link.None? <==> !Present(o.instagram)
    ensures link.Some? ==> |link.value| >= |INSTAGRAM_PREFIX| && link.value[..|INSTAGRAM_PREFIX|] == INSTAGRAM_PREFIX
  {
    if !Present(o.instagram) then None else Some(INSTAGRAM_PREFIX + LTrimChar(o.instagram.value, '@'))
  }

  /** The WhatsApp link keeps every digit of the number, in order, and only
      those: a number already written in digits is kept as it is. */
  lemma WhatsappLinkDigits(o: Organizer)
    requires Present(o.whatsapp)
    ensures WhatsappLink(o).value == WA_PREFIX + DigitsOf(o.whatsapp.value)
    ensures AllDigits(o.whatsapp.value) ==> WhatsappLink(o).value == WA_PREFIX + o.whatsapp.value
  {
  }

  /** The Instagram link is the handle with every leading '@' removed: the
      handle is some '@'s followed by what the link shows, which does not
      start with '@'. */
  lemma InstagramHandle(o: Organizer)
    requires Present(o.instagram)
    ensures var h := o.instagram.value;
      var shown := InstagramLink(o).value[|INSTAGRAM_PREFIX|..];
      && (shown != [] ==> shown[0] != '@')
      && |shown| <= |h| && h[|h| - |shown|..] == shown
      && (forall i :: 0 <= i < |h| - |shown| ==> h[i] == '@')
  {
    var h := o.instagram.value;
    assert InstagramLink(o).value[|INSTAGRAM_PREFIX|..] == LTrimChar(h, '@');
  }
}
