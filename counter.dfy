/**
 * The statistic counters (`animateCounters`). A counter's text is split into
 * its digits, read as the target number, and everything else, kept as a
 * suffix ("150+" gives 150 and "+"). Every tick of the interval adds a
 * hundredth of the target to a running value and shows its floor followed
 * by the suffix; the first tick at which the running value reaches the
 * target shows the exact target and stops the interval. Arithmetic is exact
 * here: the running value is a natural number of hundredths of a unit, where
 * the page uses floating point.
 */
module Counter {
  import opened JsText
  import opened Wrappers

  /** `text.replace(/\D/g, '')`: the digits of `text`, in order. */
  function Digits(text: string): (r: string)
    ensures AllDigits(r) && |r| <= |text|
  {
    if text == [] then []
    else (if IsDigit(text[0]) then [text[0]] else []) + Digits(text[1..])
  }

  /** `text.replace(/\d/g, '')`: everything in `text` but its digits, in order. */
  function NonDigits(text: string): (r: string)
    ensures NoDigits(r) && |r| <= |text|
  {
    if text == [] then []
    else (if IsDigit(text[0]) then [] else [text[0]]) + NonDigits(text[1..])
  }

  /** The two filters split the text: every character lands in exactly one of them. */
  lemma {:induction false} FiltersPartition(text: string)
    ensures |Digits(text)| + |NonDigits(text)| == |text|
    ensures multiset(Digits(text)) + multiset(NonDigits(text)) == multiset(text)
  {
    if text != [] {
      FiltersPartition(text[1..]);
      assert text == [text[0]] + text[1..];
    }
  }

  /**
   * Both filters work piece by piece: the digits (and the non-digits) of a
   * concatenation are those of the first part followed by those of the
   * second, so each filter keeps its characters in text order.
   */
  lemma {:induction false} FiltersAppend(a: string, b: string)
    ensures Digits(a + b) == Digits(a) + Digits(b)
    ensures NonDigits(a + b) == NonDigits(a) + NonDigits(b)
    decreases |a|
  {
    if a == [] {
      assert a + b == b;
    } else {
      var ab := a + b;
      assert ab != [] && ab[0] == a[0] && ab[1..] == a[1..] + b;
      FiltersAppend(a[1..], b);
      if IsDigit(a[0]) {
        assert Digits(ab) == [a[0]] + Digits(a[1..] + b);
        assert Digits(a) == [a[0]] + Digits(a[1..]);
        assert NonDigits(ab) == NonDigits(a[1..] + b);
        assert NonDigits(a) == NonDigits(a[1..]);
      } else {
        assert Digits(ab) == Digits(a[1..] + b);
        assert Digits(a) == Digits(a[1..]);
        assert NonDigits(ab) == [a[0]] + NonDigits(a[1..] + b);
        assert NonDigits(a) == [a[0]] + NonDigits(a[1..]);
      }
    }
  }

  /** Text made of a run of digits followed by a digit-free suffix splits back into the two. */
  lemma {:induction false} FiltersOfNumberThenSuffix(d: string, t: string)
    requires AllDigits(d) && NoDigits(t)
    ensures Digits(d + t) == d && NonDigits(d + t) == t
  {
    if d != [] {
      assert (d + t)[1..] == d[1..] + t;
      FiltersOfNumberThenSuffix(d[1..], t);
    } else if t != [] {
      assert (d + t)[1..] == [] + t[1..];
      FiltersOfNumberThenSuffix(d, t[1..]);
    }
  }

  /** `parseInt` of the digits; `None` stands for the NaN that a text without digits gives. */
  function ParseTarget(text: string): (r: Option<nat>)
    ensures r.None? <==> forall k | 0 <= k < |text| :: !IsDigit(text[k])
    ensures r.Some? ==> r.value == DecimalValue(Digits(text))
  {
    var d := Digits(text);
    NoDigitsIffNoDigitFilter(text);
    if d == [] then None else Some(DecimalValue(d))
  }

  lemma {:induction false} NoDigitsIffNoDigitFilter(text: string)
    ensures Digits(text) == [] <==> NoDigits(text)
  {
    if text != [] {
      NoDigitsIffNoDigitFilter(text[1..]);
      if NoDigits(text) {
        assert NoDigits(text[1..]) by {
          forall k | 0 <= k < |text| - 1 ensures !IsDigit(text[1..][k]) {
            assert text[1..][k] == text[k + 1];
          }
        }
      }
      if Digits(text) == [] {
        forall k | 0 <= k < |text| ensures !IsDigit(text[k]) {
          if k > 0 {
            assert text[k] == text[1..][k - 1];
          }
        }
      }
    }
  }

  /** The tick on which the running value first reaches the target. */
  function TicksToFinish(target: nat): nat {
    if target == 0 then 1 else 100
  }

  /**
   * The running value after `n` ticks, counted in hundredths: each tick adds
   * `target / 100`, that is `target` hundredths.
   */
  function Hundredths(target: nat, n: nat): nat {
    n * target
  }

  /** After `n` ticks the running value has reached a positive target exactly when `n` is 100 or more. */
  lemma ReachesTarget(target: nat, n: nat)
    requires target > 0
    ensures Hundredths(target, n) >= 100 * target <==> n >= 100
  {
    if n >= 100 {
      assert n * target == 100 * target + (n - 100) * target;
    } else {
      assert 100 * target == n * target + (100 - n) * target;
      assert (100 - n) * target > 0;
    }
  }

  /**
   * The number shown after `n` ticks: the floor of the running value while
   * it is below the target, the target itself from then on.
   */
  function ShownValue(target: nat, n: nat): (v: nat)
    ensures v <= target
    ensures v < target <==> target > 0 && n < TicksToFinish(target)
  {
    var h := Hundredths(target, n);
    assert target > 0 ==> (h >= 100 * target <==> n >= 100) by {
      if target > 0 {
        ReachesTarget(target, n);
      }
    }
    if h >= 100 * target then target else h / 100
  }

  /** The counter never counts down. */
  lemma ShownValueMonotone(target: nat, m: nat, n: nat)
    requires m <= n
    ensures ShownValue(target, m) <= ShownValue(target, n)
  {
    assert Hundredths(target, m) <= Hundredths(target, n) by {
      assert n * target == m * target + (n - m) * target;
    }
  }

  /** What one more tick does to the running value, the stop test and the number shown. */
  lemma NextTick(target: nat, n: nat)
    requires n < TicksToFinish(target)
    ensures var next := Hundredths(target, n) + target;
      next == Hundredths(target, n + 1)
      && (next >= 100 * target <==> n + 1 == TicksToFinish(target))
      && ShownValue(target, n + 1) == if next >= 100 * target then target else next / 100
  {
    assert (n + 1) * target == n * target + target;
    if target > 0 {
      ReachesTarget(target, n + 1);
    }
  }

  /**
   * The text shown after `n` ticks. With a digit-free suffix it reads back
   * as the number shown: its digits parse to that number and its non-digits
   * are the suffix.
   */
  function Display(target: nat, suffix: string, n: nat): (r: string)
    ensures NoDigits(suffix) ==> ParseTarget(r) == Some(ShownValue(target, n)) && NonDigits(r) == suffix
  {
    var number := NatToString(ShownValue(target, n));
    assert NoDigits(suffix) ==> Digits(number + suffix) == number && NonDigits(number + suffix) == suffix by {
      if NoDigits(suffix) {
        FiltersOfNumberThenSuffix(number, suffix);
      }
    }
    DecimalValueOfNatToString(ShownValue(target, n));
    number + suffix
  }

  /**
   * A counter whose text is a number written the usual way followed by a
   * digit-free suffix ("150+", "98%") ends showing exactly its original text.
   */
  lemma {:induction false} FinalDisplayIsOriginalText(number: string, suffix: string)
    requires Canonical(number) && NoDigits(suffix)
    ensures ParseTarget(number + suffix) == Some(DecimalValue(number))
    ensures NonDigits(number + suffix) == suffix
    ensures var target := DecimalValue(number);
      Display(target, suffix, TicksToFinish(target)) == number + suffix
  {
    FiltersOfNumberThenSuffix(number, suffix);
    NatToStringOfDecimalValue(number);
  }

  /**
   * A number written with a thousands dot, such as "1.500+", is read
   * neither as 1 nor as 1.5: its digits give the target 1500 and the dot
   * joins the suffix ".+".
   */
  lemma {:induction false} GroupedNumber(high: string, low: string, suffix: string)
    requires AllDigits(high) && AllDigits(low) && NoDigits(suffix)
    ensures var text := high + "." + low + suffix;
      Digits(text) == high + low && NonDigits(text) == "." + suffix
  {
    var text := high + "." + low + suffix;
    assert text == (high + ".") + (low + suffix);
    FiltersAppend(high + ".", low + suffix);
    FiltersOfNumberThenSuffix(high, ".");
    FiltersOfNumberThenSuffix(low, suffix);
  }

  /** The counter for a grouped number such as "1.500+" ends showing "1500.+". */
  lemma GroupedNumberFinalDisplay(high: string, low: string, suffix: string)
    requires Canonical(high) && high != "0" && AllDigits(low) && NoDigits(suffix)
    ensures var text := high + "." + low + suffix;
      ParseTarget(text) == Some(DecimalValue(high + low))
      && Display(DecimalValue(high + low), NonDigits(text), TicksToFinish(DecimalValue(high + low)))
         == (high + low) + ("." + suffix)
  {
    GroupedNumber(high, low, suffix);
    var number := high + low;
    assert Canonical(number) by {
      assert number[0] == high[0];
      assert forall k | 0 <= k < |high| :: number[k] == high[k];
      assert forall k | |high| <= k < |number| :: number[k] == low[k - |high|];
    }
    NatToStringOfDecimalValue(number);
  }

  /** One counter element and the interval that animates it. */
  class StatCounter {
    const target: nat
    const suffix: string
    /** The running value `current`, in hundredths. */
    var current: nat
    var text: string
    var stopped: bool
    ghost var ticks: nat

    /** The running value is what `ticks` steps add up to, and the interval stops on the finishing tick. */
    ghost predicate Valid()
      reads this
    {
      current == Hundredths(target, ticks)
      && ticks <= TicksToFinish(target)
      && (stopped <==> ticks == TicksToFinish(target))
      && (ticks > 0 ==> text == Display(target, suffix, ticks))
    }

    /** Reads target and suffix from the element's text; a text without digits is left out. */
    constructor (shown: string)
      requires ParseTarget(shown).Some?
      ensures Valid() && ticks == 0 && !stopped
      ensures target == ParseTarget(shown).value && suffix == NonDigits(shown)
      ensures text == shown && current == 0
    {
      target := ParseTarget(shown).value;
      suffix := NonDigits(shown);
      current := 0;
      text := shown;
      stopped := false;
      ticks := 0;
    }

    /** One firing of the interval; once it has been cleared nothing happens. */
    method Tick()
      requires Valid()
      modifies this
      ensures Valid()
      ensures old(stopped) ==> stopped && ticks == old(ticks) && current == old(current) && text == old(text)
      ensures !old(stopped) ==> ticks == old(ticks) + 1 && current == old(current) + target
      ensures !old(stopped) ==> text == Display(target, suffix, ticks)
      ensures !stopped ==> ShownValue(target, ticks) < target
      ensures stopped ==> text == NatToString(target) + suffix
    {
      if stopped {
        return;
      }
      var next := current + target;
      ghost var n := ticks + 1;
      NextTick(target, ticks);
      var shown: string;
      if next >= 100 * target {
        shown := NatToString(target) + suffix;
        stopped := true;
      } else {
        shown := NatToString(next / 100) + suffix;
      }
      current, text, ticks := next, shown, n;
    }
  }
}
