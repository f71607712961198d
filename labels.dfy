/** The text of the history list: one label per recorded board, naming the
    move it leads back to. A move number is written in decimal, as a
    number is when it is concatenated to a string. */
module Labels {

  predicate IsDigit(c: char)
  {
    '0' <= c <= '9'
  }

  predicate AllDigits(s: string)
  {
    forall k :: 0 <= k < |s| ==> IsDigit(s[k])
  }

  /** The character of a decimal digit. */
  function DigitChar(d: nat): (c: char)
    requires d < 10
    ensures IsDigit(c) && c as int - '0' as int == d
  {
    (d + '0' as int) as char
  }

  /** The decimal spelling of `n`: at least one digit, no leading zero. */
  function Decimal(n: nat): (s: string)
    ensures |s| >= 1 && AllDigits(s)
    ensures s[0] == '0' ==> n == 0
    decreases n
  {
    if n < 10 then [DigitChar(n)] else Decimal(n / 10) + [DigitChar(n % 10)]
  }

  /** The number a string of decimal digits denotes. */
  function DigitsValue(s: string): nat
    requires AllDigits(s)
    decreases |s|
  {
    if s == [] then 0
    else 10 * DigitsValue(s[..|s| - 1]) + (s[|s| - 1] as int - '0' as int)
  }

  /** Reading back the decimal spelling of a number gives the number. */
  lemma {:induction false} DecimalRoundTrip(n: nat)
    ensures DigitsValue(Decimal(n)) == n
    decreases n
  {
    var s := Decimal(n);
    if n >= 10 {
      assert s[..|s| - 1] == Decimal(n / 10);
      DecimalRoundTrip(n / 10);
    }
  }

  const StartLabel := "Go to game start"
  const MovePrefix := "Go to move #"

  /** The label of the history entry for move `move`: entry 0 goes back to
      the start of the game, every later entry to its move number. */
  function MoveLabel(move: nat): (r: string)
    ensures move == 0 <==> r == StartLabel
    ensures move > 0 ==>
      |r| > |MovePrefix| && r[..|MovePrefix|] == MovePrefix &&
      AllDigits(r[|MovePrefix|..]) && DigitsValue(r[|MovePrefix|..]) == move
    ensures move > 0 ==> r[|MovePrefix|] != '0'
  {
    if move > 0 then
      var r := MovePrefix + Decimal(move);
      assert r[|MovePrefix|..] == Decimal(move);
      DecimalRoundTrip(move);
      assert r[6] != StartLabel[6];
      r
    else StartLabel
  }

  /** Different entries of the history list have different labels. */
  lemma MoveLabelInjective(a: nat, b: nat)
    requires MoveLabel(a) == MoveLabel(b)
    ensures a == b
  {
    if a > 0 && b > 0 {
      var p := |MovePrefix|;
      assert MoveLabel(a)[p..] == MoveLabel(b)[p..];
    }
  }

  /** The labels of a history of `n` boards, in history order. */
  function MoveLabels(n: nat): (r: seq<string>)
    ensures |r| == n
    ensures forall k :: 0 <= k < n ==> r[k] == MoveLabel(k)
    ensures forall j, k :: 0 <= j < k < n ==> r[j] != r[k]
  {
    LabelsDistinct(n);
    seq(n, k requires 0 <= k => MoveLabel(k))
  }

  lemma LabelsDistinct(n: nat)
    ensures forall j, k :: 0 <= j < k < n ==> MoveLabel(j) != MoveLabel(k)
  {
    forall j, k | 0 <= j < k < n
      ensures MoveLabel(j) != MoveLabel(k)
    {
      if MoveLabel(j) == MoveLabel(k) {
        MoveLabelInjective(j, k);
      }
    }
  }
}
