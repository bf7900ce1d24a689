/** The ids the board gives its switches, `input-${k}`, and the way the validator reads
    `k` back: `parseInt(id.split('-')[1])` (App.tsx:47, App.tsx:149). */
module Ids {
  import opened Circuit

  predicate IsDigit(c: char) { '0' <= c <= '9' }

  function DigitChar(d: nat): (c: char)
    requires d < 10
    ensures IsDigit(c)
  {
    ('0' as int + d) as char
  }

  function DigitValue(c: char): nat
    requires IsDigit(c)
  {
    c as int - '0' as int
  }

  /** `${k}` for a non-negative integer: its decimal digits, without leading zeros. */
  function DecimalString(k: nat): (s: string)
    ensures |s| >= 1 && forall i :: 0 <= i < |s| ==> IsDigit(s[i])
    ensures k > 0 ==> s[0] != '0'
    decreases k
  {
    if k < 10 then [DigitChar(k)] else DecimalString(k / 10) + [DigitChar(k % 10)]
  }

  /** The id `loadLevel` gives the k-th switch. */
  function InputId(k: nat): (r: string)
    ensures |r| > 6 && r[..6] == "input-"
    ensures forall i :: 6 <= i < |r| ==> IsDigit(r[i])
  {
    "input-" + DecimalString(k)
  }

  /** `s.split('-')[1]`: the text between the first and the second '-', or up to the
      end when there is no second one; `undefined` when `s` has no '-'. */
  function SecondField(s: string): (r: Option<string>)
    ensures r.Some? ==> forall i :: 0 <= i < |r.value| ==> r.value[i] != '-'
  {
    match Find(s, (c: char) => c == '-')
    case None => None
    case Some(d) =>
      var rest := s[d + 1..];
      match Find(rest, (c: char) => c == '-')
      case None => Some(rest)
      case Some(e) => Some(rest[..e])
  }

  /** The longest prefix of `s` made of decimal digits. */
  function LeadingDigits(s: string): (r: string)
    ensures |r| <= |s| && r == s[..|r|]
    ensures forall i :: 0 <= i < |r| ==> IsDigit(r[i])
    ensures |r| < |s| ==> !IsDigit(s[|r|])
  {
    if s == [] || !IsDigit(s[0]) then [] else [s[0]] + LeadingDigits(s[1..])
  }

  /** The number a run of decimal digits denotes, most significant first. */
  function DigitsValue(ds: string): nat
    requires forall i :: 0 <= i < |ds| ==> IsDigit(ds[i])
  {
    if ds == [] then 0 else 10 * DigitsValue(ds[..|ds| - 1]) + DigitValue(ds[|ds| - 1])
  }

  /** `parseInt(s)` with radix 10: an optional '+', then at least one digit; `None`
      stands for NaN. */
  function ParseInt(s: string): (r: Option<nat>)
    ensures s != [] && (forall i :: 0 <= i < |s| ==> IsDigit(s[i])) ==> r == Some(DigitsValue(s))
    ensures s == [] || (!IsDigit(s[0]) && s[0] != '+') ==> r.None?
  {
    var body := if |s| > 0 && s[0] == '+' then s[1..] else s;
    var ds := LeadingDigits(body);
    if ds == [] then None
    else if forall i :: 0 <= i < |s| ==> IsDigit(s[i]) then
      LeadingDigitsOfDigits(s);
      Some(DigitsValue(ds))
    else Some(DigitsValue(ds))
  }

  /** The position the validator gives an INPUT node: `parseInt(id.split('-')[1])`. */
  function InputIndex(id: string): (r: Option<nat>)
    ensures (forall i :: 0 <= i < |id| ==> id[i] != '-') ==> r.None?
  {
    match SecondField(id)
    case None => None
    case Some(field) => ParseInt(field)
  }

  /** Reading a number back from its decimal digits gives the number. */
  lemma {:induction false} DigitsValueOfDecimal(k: nat)
    ensures DigitsValue(DecimalString(k)) == k
    decreases k
  {
    if k >= 10 {
      var s := DecimalString(k);
      DigitsValueOfDecimal(k / 10);
      assert s[..|s| - 1] == DecimalString(k / 10);
    }
  }

  /** The validator recovers `k` from the id `input-k` that `loadLevel` gave. */
  lemma InputIndexOfInputId(k: nat)
    ensures InputIndex(InputId(k)) == Some(k)
  {
    var id := InputId(k);
    var digits := DecimalString(k);
    assert id[5] == '-';
    assert forall i :: 0 <= i < 5 ==> id[i] != '-';
    assert id[6..] == digits;
    assert forall i :: 0 <= i < |digits| ==> digits[i] != '-';
    assert digits[0] != '+';
    LeadingDigitsOfDigits(digits);
    DigitsValueOfDecimal(k);
  }

  lemma {:induction false} LeadingDigitsOfDigits(ds: string)
    requires forall i :: 0 <= i < |ds| ==> IsDigit(ds[i])
    ensures LeadingDigits(ds) == ds
  {
    if ds != [] {
      LeadingDigitsOfDigits(ds[1..]);
    }
  }

  /** Distinct switches get distinct ids. */
  lemma InputIdInjective(j: nat, k: nat)
    ensures InputId(j) == InputId(k) <==> j == k
  {
    if InputId(j) == InputId(k) {
      InputIndexOfInputId(j);
      InputIndexOfInputId(k);
    }
  }
}
