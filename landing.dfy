/**
 * The landing page's terminal greeting (src/pages/landing/LandingPage.js:7-33):
 * a random eight-digit user number, the two-line greeting that ends with it,
 * and an interval that types the greeting one character per tick.
 */
module Landing {

  /** `Math.floor(10000000 + r * 90000000)` for `r = Math.random()`, which lies in [0, 1). */
  function UserId(r: real): (id: int)
    requires 0.0 <= r < 1.0
    ensures 10000000 <= id <= 99999999
  {
    (10000000.0 + r * 90000000.0).Floor
  }

  function Pow10(k: nat): (p: nat)
    ensures p >= 1
  {
    if k == 0 then 1 else 10 * Pow10(k - 1)
  }

  function DigitChar(d: nat): (c: char)
    requires d < 10
    ensures '0' <= c <= '9' && c as int - '0' as int == d
  {
    ('0' as int + d) as char
  }

  /** The decimal text of a number, as in a template literal. */
  function Decimal(n: nat): (s: string)
    ensures |s| >= 1
    ensures forall i :: 0 <= i < |s| ==> '0' <= s[i] <= '9'
  {
    if n < 10 then [DigitChar(n)] else Decimal(n / 10) + [DigitChar(n % 10)]
  }

  /** The number a digit string denotes; the partner of `Decimal`. */
  function DecimalValue(s: string): nat
    requires forall i :: 0 <= i < |s| ==> '0' <= s[i] <= '9'
  {
    if |s| == 0 then 0
    else DecimalValue(s[..|s| - 1]) * 10 + (s[|s| - 1] as int - '0' as int)
  }

  /** Reading back the decimal text gives the number. */
  lemma {:induction false} DecimalRoundTrip(n: nat)
    ensures DecimalValue(Decimal(n)) == n
  {
    if n >= 10 {
      DecimalRoundTrip(n / 10);
      var s := Decimal(n);
      assert s[..|s| - 1] == Decimal(n / 10);
    }
  }

  /** A number with k digits has a decimal text of length k. */
  lemma {:induction false} DecimalLength(n: nat, k: nat)
    requires k >= 1 && Pow10(k - 1) <= n < Pow10(k)
    ensures |Decimal(n)| == k
  {
    if k > 1 {
      DecimalLength(n / 10, k - 1);
    } else {
      assert n < 10;
    }
  }

  const Greeting := "> INITIALIZING FRIDAY CALENDAR SYSTEM.."
  const WelcomePrefix := "> WELCOME TO FRIDAY CALENDAR User_"

  /** `messages.join('\n')` for the two greeting lines. */
  function FullText(userId: nat): (t: string)
    ensures t == Greeting + "\n" + WelcomePrefix + Decimal(userId)
    ensures |t| == |Greeting| + 1 + |WelcomePrefix| + |Decimal(userId)|
    ensures t[|t| - |Decimal(userId)|..] == Decimal(userId)
  {
    var t := Greeting + "\n" + WelcomePrefix + Decimal(userId);
    assert t[|t| - |Decimal(userId)|..] == Decimal(userId);
    t
  }

  /** Every user number the page can draw gives an 82-character greeting ending in its eight digits. */
  lemma FullTextLength(userId: nat)
    requires 10000000 <= userId <= 99999999
    ensures |Decimal(userId)| == 8
    ensures |FullText(userId)| == 82
  {
    assert Pow10(7) == 10000000 && Pow10(8) == 100000000;
    DecimalLength(userId, 8);
  }

  /** The index after one tick as written: it stops one short of the text's length. */
  function Step(fullText: string, i: nat): nat {
    if i < |fullText| - 1 then i + 1 else i
  }

  /** The index after one tick as evidently intended: it stops at the text's length. */
  function StepIntended(fullText: string, i: nat): nat {
    if i < |fullText| then i + 1 else i
  }

  /** The index after n ticks from 0, as written. */
  function IndexAfter(fullText: string, n: nat): (i: nat)
    ensures i <= |fullText|
    ensures |fullText| > 0 ==> i < |fullText|
  {
    if n == 0 then 0 else Step(fullText, IndexAfter(fullText, n - 1))
  }

  /** The index after n ticks from 0, as intended. */
  function IndexAfterIntended(fullText: string, n: nat): (i: nat)
    ensures i <= |fullText|
  {
    if n == 0 then 0 else StepIntended(fullText, IndexAfterIntended(fullText, n - 1))
  }

  /** As written, typing reaches every index up to `|fullText| - 1` and never gets further. */
  lemma {:induction false} IndexAfterBound(fullText: string, n: nat)
    requires |fullText| > 0
    ensures IndexAfter(fullText, n) == if n < |fullText| - 1 then n else |fullText| - 1
  {
    if n > 0 {
      IndexAfterBound(fullText, n - 1);
    }
  }

  /** As intended, typing reaches every index up to `|fullText|`. */
  lemma {:induction false} IndexAfterIntendedBound(fullText: string, n: nat)
    ensures IndexAfterIntended(fullText, n) == if n < |fullText| then n else |fullText|
  {
    if n > 0 {
      IndexAfterIntendedBound(fullText, n - 1);
    }
  }

  /**
   * The text typed after the ticks as written. The state updater
   * `prev => prev + fullText[currentIndex]` reads `currentIndex` when React
   * runs it: at the tick itself (`false`, the index before the increment)
   * or at the next render (`true`, the index after it). `readings` gives
   * that choice tick by tick.
   */
  function Typed(fullText: string, readings: seq<bool>): string
    requires |fullText| > 0
  {
    if |readings| == 0 then ""
    else
      var i := IndexAfter(fullText, |readings| - 1);
      var prev := Typed(fullText, readings[..|readings| - 1]);
      if i < |fullText| - 1 then prev + [fullText[i + if readings[|readings| - 1] then 1 else 0]] else prev
  }

  /** Whatever the timing of the updaters, one character is appended per advance of the index. */
  lemma {:induction false} TypedLength(fullText: string, readings: seq<bool>)
    requires |fullText| > 0
    ensures |Typed(fullText, readings)| == IndexAfter(fullText, |readings|)
  {
    if |readings| > 0 {
      TypedLength(fullText, readings[..|readings| - 1]);
    }
  }

  /** As written, whatever the updaters' timing, the whole text is never shown: it stays one character short. */
  lemma NeverWholeText(fullText: string, readings: seq<bool>)
    requires |fullText| > 0
    ensures |Typed(fullText, readings)| <= |fullText| - 1
    ensures Typed(fullText, readings) != fullText
  {
    TypedLength(fullText, readings);
    IndexAfterBound(fullText, |readings|);
  }

  /** Updaters run at the tick: the text is the prefix up to the index. */
  lemma {:induction false} TypedAtTick(fullText: string, readings: seq<bool>)
    requires |fullText| > 0
    requires forall k :: 0 <= k < |readings| ==> !readings[k]
    ensures Typed(fullText, readings) == fullText[..IndexAfter(fullText, |readings|)]
  {
    if |readings| > 0 {
      var i := IndexAfter(fullText, |readings| - 1);
      TypedAtTick(fullText, readings[..|readings| - 1]);
      if i < |fullText| - 1 {
        assert fullText[..i] + [fullText[i]] == fullText[..i + 1];
      }
    }
  }

  /** Updaters run after the increment: the text is the greeting without its first character, up to the index. */
  lemma {:induction false} TypedAfterIncrement(fullText: string, readings: seq<bool>)
    requires |fullText| > 0
    requires forall k :: 0 <= k < |readings| ==> readings[k]
    ensures Typed(fullText, readings) == fullText[1..IndexAfter(fullText, |readings|) + 1]
  {
    if |readings| > 0 {
      var i := IndexAfter(fullText, |readings| - 1);
      TypedAfterIncrement(fullText, readings[..|readings| - 1]);
      if i < |fullText| - 1 {
        assert fullText[1..i + 1] + [fullText[i + 1]] == fullText[1..i + 2];
      }
    }
  }

  /**
   * As written, with the updaters run at the tick, no number of ticks shows
   * the whole greeting: typing stops with the last digit of the user number
   * missing.
   */
  lemma LastDigitNeverTyped(userId: nat, readings: seq<bool>)
    requires 10000000 <= userId <= 99999999
    requires forall k :: 0 <= k < |readings| ==> !readings[k]
    ensures |Decimal(userId)| == 8
    ensures var t := FullText(userId);
            Typed(t, readings) != t &&
            (|readings| >= |t| - 1 ==> Typed(t, readings) == Greeting + "\n" + WelcomePrefix + Decimal(userId)[..7])
  {
    var t := FullText(userId);
    FullTextLength(userId);
    NeverWholeText(t, readings);
    TypedAtTick(t, readings);
    IndexAfterBound(t, |readings|);
    if |readings| >= |t| - 1 {
      assert t[..81] == Greeting + "\n" + WelcomePrefix + Decimal(userId)[..7];
    }
  }

  /**
   * As written, with the updaters run after the increment, typing ends with
   * the whole user number but without the greeting's leading '>'.
   */
  lemma FirstCharacterSkippedAfterIncrement(userId: nat, readings: seq<bool>)
    requires 10000000 <= userId <= 99999999
    requires forall k :: 0 <= k < |readings| ==> readings[k]
    ensures var t := FullText(userId);
            Typed(t, readings) != t &&
            (|readings| >= |t| - 1 ==> Typed(t, readings) == Greeting[1..] + "\n" + WelcomePrefix + Decimal(userId))
  {
    var t := FullText(userId);
    FullTextLength(userId);
    NeverWholeText(t, readings);
    TypedAfterIncrement(t, readings);
    IndexAfterBound(t, |readings|);
    if |readings| >= |t| - 1 {
      assert t[1..82] == Greeting[1..] + "\n" + WelcomePrefix + Decimal(userId);
    }
  }

  /**
   * The text typed after n corrected ticks: the bound is the text's length
   * and the character is read at the tick, so the updater's timing no
   * longer matters.
   */
  function TypedIntended(fullText: string, n: nat): string {
    if n == 0 then ""
    else
      var i := IndexAfterIntended(fullText, n - 1);
      var prev := TypedIntended(fullText, n - 1);
      if i < |fullText| then prev + [fullText[i]] else prev
  }

  /** Corrected ticks always show the prefix of the text up to the index. */
  lemma {:induction false} TypedIntendedPrefix(fullText: string, n: nat)
    ensures TypedIntended(fullText, n) == fullText[..IndexAfterIntended(fullText, n)]
  {
    if n > 0 {
      var i := IndexAfterIntended(fullText, n - 1);
      TypedIntendedPrefix(fullText, n - 1);
      if i < |fullText| {
        assert fullText[..i] + [fullText[i]] == fullText[..i + 1];
      }
    }
  }

  /** As intended, after as many ticks as the greeting has characters the whole greeting is shown. */
  lemma IntendedTypesWholeText(userId: nat, n: nat)
    requires n >= |FullText(userId)|
    ensures TypedIntended(FullText(userId), n) == FullText(userId)
  {
    TypedIntendedPrefix(FullText(userId), n);
    IndexAfterIntendedBound(FullText(userId), n);
  }

  /** The typing effect as written. */
  class TypingEffect {
    var fullText: string
    var text: string
    var currentIndex: nat
    /** False once the interval has been cleared. */
    var running: bool
    /** When each tick's updater read the index so far. */
    ghost var readings: seq<bool>

    /** The index and the text are those of the ticks so far. */
    ghost predicate Valid()
      reads this
    {
      |fullText| > 0 && currentIndex == IndexAfter(fullText, |readings|) && text == Typed(fullText, readings)
    }

    /** The effect's setup: the text is cleared and typing starts at 0. */
    constructor(userId: nat)
      ensures Valid()
      ensures fullText == FullText(userId) && text == "" && currentIndex == 0 && running && readings == []
    {
      fullText := FullText(userId);
      text := "";
      currentIndex := 0;
      running := true;
      readings := [];
    }

    /**
     * One interval tick as written: while the index is below `length - 1`
     * it appends a character and advances the index, otherwise it clears
     * the interval. `afterIncrement` says whether the updater reads the
     * index after the increment.
     */
    method Tick(afterIncrement: bool)
      requires Valid() && running
      modifies this
      ensures Valid()
      ensures fullText == old(fullText) && readings == old(readings) + [afterIncrement]
      ensures currentIndex == Step(fullText, old(currentIndex))
      ensures old(currentIndex) < |fullText| - 1 ==>
                text == old(text) + [fullText[old(currentIndex) + if afterIncrement then 1 else 0]] && running
      ensures old(currentIndex) >= |fullText| - 1 ==> text == old(text) && !running
      ensures |text| < |fullText|
    {
      ghost var rs := readings + [afterIncrement];
      assert rs[..|rs| - 1] == readings;
      if currentIndex < |fullText| - 1 {
        text := text + [fullText[currentIndex + if afterIncrement then 1 else 0]];
        currentIndex := currentIndex + 1;
      } else {
        running := false;
      }
      readings := rs;
      NeverWholeText(fullText, readings);
    }
  }

  /** The typing effect with the corrected tick. */
  class CorrectedTypingEffect {
    var fullText: string
    var text: string
    var currentIndex: nat
    /** False once the interval has been cleared. */
    var running: bool

    /** The typed text is always the prefix of the greeting up to the index. */
    predicate Valid()
      reads this
    {
      currentIndex <= |fullText| && text == fullText[..currentIndex]
    }

    constructor(userId: nat)
      ensures Valid()
      ensures fullText == FullText(userId) && text == "" && currentIndex == 0 && running
    {
      fullText := FullText(userId);
      text := "";
      currentIndex := 0;
      running := true;
    }

    /** One corrected tick: it appends while the index is below the length and stops with the whole greeting shown. */
    method Tick()
      requires Valid() && running
      modifies this
      ensures Valid()
      ensures fullText == old(fullText)
      ensures currentIndex == StepIntended(fullText, old(currentIndex))
      ensures old(currentIndex) < |fullText| ==>
                text == old(text) + [fullText[old(currentIndex)]] && running
      ensures old(currentIndex) >= |fullText| ==> text == fullText && !running
    {
      if currentIndex < |fullText| {
        text := text + [fullText[currentIndex]];
        currentIndex := currentIndex + 1;
      } else {
        running := false;
      }
    }
  }
}
