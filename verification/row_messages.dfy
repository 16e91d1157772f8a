/** The two exceptions the row-mapping callback throws, and the messages they carry.
    The odds message embeds the horse's name, which may contain any text, so the
    lemmas below show that a message still identifies its row error exactly. */
module RowMessages {
  import opened Wrappers
  import Decimal

  /** Which text was missing on which row; the odds error also names the horse. */
  datatype RowError = NameNotFound(index: nat) | OddsNotFound(name: string, index: nat)

  const NamePrefix: string := "Name not found on row "
  const OddsPrefix: string := "Odds not found for horse "
  const RowInfix: string := " on row "

  /** The `Error` message the callback constructs for a row error. */
  function Message(e: RowError): (m: string)
    // it opens with the prefix of its kind, followed by the horse's name verbatim for the odds error
    ensures e.NameNotFound? ==> |NamePrefix| <= |m| && m[..|NamePrefix|] == NamePrefix
    ensures e.OddsNotFound? ==>
              && |OddsPrefix| + |e.name| <= |m|
              && m[..|OddsPrefix|] == OddsPrefix
              && m[|OddsPrefix|..|OddsPrefix| + |e.name|] == e.name
    // it closes with " on row " and the row number in decimal
    ensures |RowInfix| + |Decimal.FromNat(e.index)| <= |m|
    ensures m[|m| - |Decimal.FromNat(e.index)| - |RowInfix|..] == RowInfix + Decimal.FromNat(e.index)
    // and nothing else sits between those parts
    ensures |m| == |Decimal.FromNat(e.index)| +
              (if e.NameNotFound? then |NamePrefix| else |OddsPrefix| + |e.name| + |RowInfix|)
  {
    match e
    case NameNotFound(i) => NamePrefix + Decimal.FromNat(i)
    case OddsNotFound(name, i) => OddsPrefix + name + RowInfix + Decimal.FromNat(i)
  }

  /** Length of the longest run of digits that ends `s`. */
  function TrailingDigits(s: string): (k: nat)
    ensures k <= |s|
    ensures forall i :: |s| - k <= i < |s| ==> Decimal.IsDigit(s[i])
    ensures k < |s| ==> !Decimal.IsDigit(s[|s| - k - 1])
    decreases |s|
  {
    if s == [] || !Decimal.IsDigit(s[|s| - 1]) then 0
    else TrailingDigits(s[..|s| - 1]) + 1
  }

  /** Recovers the row error from a message: the row number is the trailing run of digits. */
  function Parse(m: string): Option<RowError> {
    var k := TrailingDigits(m);
    var head := m[..|m| - k];
    var digits := m[|m| - k..];
    assert forall i :: 0 <= i < k ==> digits[i] == m[|m| - k + i];
    var index := Decimal.ToNat(digits);
    if k == 0 then None
    else if head == NamePrefix then Some(NameNotFound(index))
    else if |OddsPrefix| + |RowInfix| <= |head|
         && head[..|OddsPrefix|] == OddsPrefix
         && head[|head| - |RowInfix|..] == RowInfix
    then Some(OddsNotFound(head[|OddsPrefix|..|head| - |RowInfix|], index))
    else None
  }

  /** Digits appended after a non-digit form exactly the trailing run. */
  lemma {:induction false} TrailingDigitsAfter(p: string, d: string)
    requires |p| > 0 && !Decimal.IsDigit(p[|p| - 1])
    requires Decimal.AllDigits(d)
    ensures TrailingDigits(p + d) == |d|
    decreases |d|
  {
    if d == [] {
      assert p + d == p;
    } else {
      var d' := d[..|d| - 1];
      assert (p + d)[..|p + d| - 1] == p + d';
      TrailingDigitsAfter(p, d');
    }
  }

  /** Every message parses back to the error that produced it. */
  lemma ParseMessage(e: RowError)
    ensures Parse(Message(e)) == Some(e)
  {
    var digits := Decimal.FromNat(e.index);
    var head := if e.NameNotFound? then NamePrefix else OddsPrefix + e.name + RowInfix;
    assert Message(e) == head + digits;
    TrailingDigitsAfter(head, digits);
    Decimal.ToNatFromNat(e.index);
    var m := Message(e);
    assert m[..|m| - |digits|] == head;
    assert m[|m| - |digits|..] == digits;
    if e.OddsNotFound? {
      assert head[0] != NamePrefix[0];
      assert head[..|OddsPrefix|] == OddsPrefix;
      assert head[|head| - |RowInfix|..] == RowInfix;
      assert head[|OddsPrefix|..|head| - |RowInfix|] == e.name;
    }
  }

  /** Distinct row errors never share a message. */
  lemma MessageInjective(e1: RowError, e2: RowError)
    requires Message(e1) == Message(e2)
    ensures e1 == e2
  {
    ParseMessage(e1);
    ParseMessage(e2);
  }
}
