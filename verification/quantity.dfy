/** A resource quantity (CPU, memory, …) and its text form. Kubernetes'
    `resource.Quantity` parser is not part of this model; this stands in for
    it with a decimal amount followed by one of a fixed set of unit suffixes,
    a partial parser and a canonical printer proved to be its right inverse. */
module Quantities {
  import opened Common
  import opened Decimal

  datatype Suffix = NoSuffix | Milli | Kilo | Mega | Giga | Kibi | Mebi | Gibi

  datatype Quantity = Quantity(amount: nat, suffix: Suffix)

  function SuffixText(u: Suffix): string {
    match u
    case NoSuffix => ""
    case Milli => "m"
    case Kilo => "k"
    case Mega => "M"
    case Giga => "G"
    case Kibi => "Ki"
    case Mebi => "Mi"
    case Gibi => "Gi"
  }

  /** Recognises a unit suffix; the text it accepts is exactly that suffix's spelling. */
  function ParseSuffix(t: string): (r: Option<Suffix>)
    ensures r.Some? ==> SuffixText(r.value) == t
    ensures r.None? ==> forall u: Suffix :: SuffixText(u) != t
  {
    if t == "" then Some(NoSuffix)
    else if t == "m" then Some(Milli)
    else if t == "k" then Some(Kilo)
    else if t == "M" then Some(Mega)
    else if t == "G" then Some(Giga)
    else if t == "Ki" then Some(Kibi)
    else if t == "Mi" then Some(Mebi)
    else if t == "Gi" then Some(Gibi)
    else None
  }

  /** Length of the run of digits that starts `s`. */
  function LeadingDigits(s: string): (n: nat)
    ensures n <= |s|
    ensures AllDigits(s[..n])
    ensures n < |s| ==> !IsDigit(s[n])
    decreases |s|
  {
    if |s| == 0 || !IsDigit(s[0]) then 0
    else
      var n := 1 + LeadingDigits(s[1..]);
      assert s[..n] == [s[0]] + s[1..][..n - 1];
      n
  }

  /** The quantity parser: `None` stands for its error. */
  function ParseQuantity(s: string): (r: Option<Quantity>)
    ensures r.Some? ==> |s| >= 1 && IsDigit(s[0])
    ensures r.Some? ==> exists n | 0 < n <= |s| :: AllDigits(s[..n]) && s[n..] == SuffixText(r.value.suffix)
  {
    var n := LeadingDigits(s);
    if n == 0 then None
    else
      match ParseSuffix(s[n..])
      case None => None
      case Some(u) => Some(Quantity(DigitsValue(s[..n]), u))
  }

  /** The canonical text of a quantity. */
  function PrintQuantity(q: Quantity): string {
    NatToString(q.amount) + SuffixText(q.suffix)
  }

  /** The digit run of `d + t` is `d` exactly when `t` does not start with a digit. */
  lemma {:induction false} LeadingDigitsOf(d: string, t: string)
    requires AllDigits(d)
    requires |t| == 0 || !IsDigit(t[0])
    ensures LeadingDigits(d + t) == |d|
    decreases |d|
  {
    if |d| > 0 {
      assert (d + t)[1..] == d[1..] + t;
      LeadingDigitsOf(d[1..], t);
    }
  }

  /** Printing then parsing gives back the same quantity. */
  lemma ParsePrint(q: Quantity)
    ensures ParseQuantity(PrintQuantity(q)) == Some(q)
  {
    var d := NatToString(q.amount);
    var t := SuffixText(q.suffix);
    LeadingDigitsOf(d, t);
    var s := d + t;
    assert s[..|d|] == d;
    assert s[|d|..] == t;
  }
}
