/** Point values. The game uses whole points and half points (0.5); every value
    here is an integer count of half points, so 1 stands for 0.5 and 4 for 2. */
module Points {
  import opened Options
  import opened Strings

  function Abs(p: int): nat {
    if p < 0 then -p else p
  }

  /** `String(v)` for the number `v` = `p` / 2: "2", "-1", "0.5", "-1.5". */
  function Format(p: int): (r: string)
    ensures r != []
  {
    (if p < 0 then "-" else "") + Magnitude(Abs(p))
  }

  /** The unsigned text of `a` half points: the whole points, then ".5" when a
      half point is left over. */
  function Magnitude(a: nat): (r: string)
    ensures r != []
  {
    NatToString(a / 2) + (if a % 2 == 0 then "" else ".5")
  }

  /** `Number.parseFloat(text)` on the texts this model ever shows in a points
      cell: an optional minus sign, decimal digits and an optional ".5". Any other
      text reads as `None` (`NaN`). */
  function ParsePoints(text: string): Option<int> {
    if text != [] && text[0] == '-' then
      match ParseMagnitude(text[1..])
      case Some(m) => var v: int := m; Some(-v)
      case None => None
    else ParseMagnitude(text)
  }

  /** Digits followed by nothing or by ".5", as a count of half points. */
  function ParseMagnitude(body: string): Option<nat> {
    var whole := DigitPrefix(body);
    var rest := body[|whole|..];
    if whole == [] || (rest != [] && rest != ".5") then None
    else Some(2 * ParseDigits(whole) + (if rest == ".5" then 1 else 0))
  }

  /** `Number.parseFloat(text) || 0`. */
  function ParseOrZero(text: string): int {
    match ParsePoints(text)
    case Some(p) => p
    case None => 0
  }

  lemma ParseMagnitudeOf(digits: string, tail: string)
    requires digits != [] && AllDigits(digits)
    requires tail == "" || tail == ".5"
    ensures ParseMagnitude(digits + tail)
      == Some(2 * ParseDigits(digits) + (if tail == ".5" then 1 else 0))
  {
    DigitPrefixStops(digits, tail);
    assert (digits + tail)[|digits|..] == tail;
  }

  /** A magnitude that does not start with a sign reads as itself, and with a
      leading minus as its negation. */
  lemma ParseSigned(body: string, m: nat)
    requires body != [] && body[0] != '-' && ParseMagnitude(body) == Some(m)
    ensures ParsePoints(body) == Some(m)
    ensures ParsePoints("-" + body) == Some(-(m as int))
  {
    assert ("-" + body)[0] == '-';
    assert ("-" + body)[1..] == body;
  }

  /** `n` whole points, then ".5" when a half point is left over, read back as
      the count of half points. */
  lemma WholeAndHalf(n: nat, half: bool)
    ensures var body := NatToString(n) + (if half then ".5" else "");
      body != [] && body[0] != '-' && ParseMagnitude(body) == Some(2 * n + (if half then 1 else 0))
  {
    var tail := if half then ".5" else "";
    ParseDigitsOfNatToString(n);
    ParseMagnitudeOf(NatToString(n), tail);
    assert (NatToString(n) + tail)[0] == NatToString(n)[0];
  }

  lemma MagnitudeRoundTrip(a: nat)
    ensures Magnitude(a)[0] != '-' && ParseMagnitude(Magnitude(a)) == Some(a)
  {
    var n: nat := a / 2;
    var half := a % 2 != 0;
    assert 2 * n + (if half then 1 else 0) == a;
    WholeAndHalf(n, half);
  }

  /** Reading a formatted points value back gives the value itself, so a cell's
      text stands for exactly the number last written into it. */
  lemma FormatRoundTrip(p: int)
    ensures ParsePoints(Format(p)) == Some(p)
    ensures ParseOrZero(Format(p)) == p
  {
    MagnitudeRoundTrip(Abs(p));
    ParseSigned(Magnitude(Abs(p)), Abs(p));
    if p < 0 {
      assert Format(p) == "-" + Magnitude(Abs(p));
    } else {
      assert Format(p) == Magnitude(Abs(p));
    }
  }
}
