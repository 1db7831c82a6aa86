/** Argument vectors handed to `ProcessBuilder` by both Java services, and
    the `--fec-ratio` word they share. */
module Argv {
  import opened Wrappers
  import opened JavaText

  /** A `List<String>` of command words; `None` is a null element, which
      `ProcessBuilder.start` rejects with a NullPointerException. */
  type Words = seq<Option<string>>

  predicate NoNull(w: Words) {
    forall i :: 0 <= i < |w| ==> w[i].Some?
  }

  /** The flags of a flag/value word list, in order. */
  function Flags(opts: Words): seq<Option<string>>
    decreases |opts|
  {
    if |opts| < 2 then [] else [opts[0]] + Flags(opts[2..])
  }

  /** The value after the first occurrence of `flag`, if the flag occurs. */
  function Lookup(opts: Words, flag: string): Option<Option<string>>
    decreases |opts|
  {
    if |opts| < 2 then None
    else if opts[0] == Some(flag) then Some(opts[1])
    else Lookup(opts[2..], flag)
  }

  /** One flag followed by its value. */
  function Pair(flag: string, value: Option<string>): Words {
    [Some(flag), value]
  }

  lemma NoNullAppend(a: Words, b: Words)
    ensures NoNull(a + b) <==> NoNull(a) && NoNull(b)
  {
    if NoNull(a) && NoNull(b) {
      forall i | 0 <= i < |a + b|
        ensures (a + b)[i].Some?
      {
        if i >= |a| {
          assert (a + b)[i] == b[i - |a|];
        }
      }
    }
    if NoNull(a + b) {
      forall i | 0 <= i < |a|
        ensures a[i].Some?
      {
        assert (a + b)[i] == a[i];
      }
      forall i | 0 <= i < |b|
        ensures b[i].Some?
      {
        assert (a + b)[|a| + i] == b[i];
      }
    }
  }

  lemma NoNullPair(flag: string, value: Option<string>)
    ensures NoNull(Pair(flag, value)) <==> value.Some?
  {
    assert Pair(flag, value)[1] == value;
  }

  /** A pair binds exactly its own flag. */
  lemma LookupPair(flag: string, value: Option<string>, f: string)
    ensures Flags(Pair(flag, value)) == [Some(flag)]
    ensures Lookup(Pair(flag, value), f) == if f == flag then Some(value) else None
  {
    assert Pair(flag, value)[2..] == [];
  }

  /** The flags of a concatenation of whole pairs. */
  lemma {:induction false} FlagsAppend(a: Words, b: Words)
    requires |a| % 2 == 0
    ensures Flags(a + b) == Flags(a) + Flags(b)
    decreases |a|
  {
    if |a| == 0 {
      assert a + b == b;
    } else {
      assert (a + b)[2..] == a[2..] + b;
      FlagsAppend(a[2..], b);
    }
  }

  /** Lookup in a concatenation of whole pairs: the first part wins. */
  lemma {:induction false} LookupAppend(a: Words, b: Words, f: string)
    requires |a| % 2 == 0
    ensures Lookup(a + b, f) == if Lookup(a, f).Some? then Lookup(a, f) else Lookup(b, f)
    decreases |a|
  {
    if |a| == 0 {
      assert a + b == b;
    } else {
      assert (a + b)[2..] == a[2..] + b;
      LookupAppend(a[2..], b, f);
    }
  }

  /** Appending one pair: an earlier binding of the flag wins. */
  lemma LookupExtend(a: Words, flag: string, value: Option<string>, f: string)
    requires |a| % 2 == 0
    ensures Lookup(a + Pair(flag, value), f) ==
      if Lookup(a, f).Some? then Lookup(a, f) else if f == flag then Some(value) else None
  {
    LookupAppend(a, Pair(flag, value), f);
    LookupPair(flag, value, f);
  }

  /** `String.valueOf(boolean)`. */
  function BoolText(b: bool): string {
    if b then "true" else "false"
  }

  function Max(a: real, b: real): real { if a < b then b else a }
  function Min(a: real, b: real): real { if a < b then a else b }

  /** The FEC parity ratio the Java side passes: 0.2 for a null percent,
      otherwise percent/100 clamped to [0.15, 0.35] (exact arithmetic). */
  function FecRatio(percent: Option<int>): (r: real)
    ensures 0.15 <= r <= 0.35
    ensures percent.None? ==> r == 0.2
    ensures percent.Some? ==> (r == percent.value as real / 100.0 <==> 15 <= percent.value <= 35)
  {
    if percent.None? then 0.2 else Max(0.15, Min(0.35, percent.value as real / 100.0))
  }

  /** The clamped ratio as a whole percent. */
  function ClampedPercent(percent: Option<int>): int {
    if percent.None? then 20
    else if percent.value < 15 then 15
    else if percent.value > 35 then 35
    else percent.value
  }

  /** Value of the fraction digits after "0.". */
  function Fraction(digits: string): real
    requires AllDigits(digits)
  {
    DigitsValue(digits) as real / Pow10(|digits|) as real
  }

  function Pow10(k: nat): (p: nat)
    ensures p >= 1
  {
    if k == 0 then 1 else 10 * Pow10(k - 1)
  }

  /** `String.valueOf(double)` of the ratio: "0." followed by the tens digit
      of the percent and the units digit unless it is zero. */
  function RatioText(percent: Option<int>): string {
    var c := ClampedPercent(percent);
    "0." + [DigitChar(c / 10)] + (if c % 10 == 0 then [] else [DigitChar(c % 10)])
  }

  /** The word is the shortest decimal spelling of the clamped ratio. */
  lemma RatioTextValue(percent: Option<int>)
    ensures var t := RatioText(percent);
      |t| >= 3 && t[..2] == "0." && AllDigits(t[2..])
      && Fraction(t[2..]) == FecRatio(percent)
      && t[|t| - 1] != '0'
  {
    var c := ClampedPercent(percent);
    var tens := c / 10;
    var ones := c % 10;
    var digits := [DigitChar(tens)] + (if ones == 0 then [] else [DigitChar(ones)]);
    var first := [DigitChar(tens)];
    assert first[..0] == [];
    assert DigitsValue(first) == tens;
    assert DigitsValue(digits) == (if ones == 0 then tens else c) by {
      if ones != 0 {
        assert digits[..1] == first;
      }
    }
    assert FecRatio(percent) == c as real / 100.0;
    var t := "0." + digits;
    assert t == RatioText(percent);
    assert t[2..] == digits;
  }
}
