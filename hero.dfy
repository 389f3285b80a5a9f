/** The typewriter headline of the landing section (src/components/Hero.tsx):
    it types one of three titles a character at a time, holds it, deletes it
    a character at a time, and moves on to the next title. The transition is
    stated over any list of titles; the component uses `Texts`. */
module Hero {

  const Texts: seq<string> := ["Software Engineer", "Problem Solver", "Tech Enthusiast"]

  /** Milliseconds before the next tick: 50 while deleting, 100 while typing. */
  function TickDelay(isDeleting: bool): nat {
    if isDeleting then 50 else 100
  }

  /** How long a finished title stays before deletion starts. */
  const HoldDelay: nat := 2000

  /** The three pieces of component state. */
  datatype TypewriterState = TypewriterState(displayText: string, currentIndex: nat, isDeleting: bool)

  /** The states the component can be in: a title index in range and, on
      screen, a prefix of that title. */
  predicate ValidState(texts: seq<string>, s: TypewriterState) {
    s.currentIndex < |texts| && s.displayText <= texts[s.currentIndex]
  }

  /** One firing of the effect's timer. The follow-up timer that sets
      `isDeleting` after the hold is folded into the tick that starts it. */
  function Tick(texts: seq<string>, s: TypewriterState): (r: TypewriterState)
    requires s.currentIndex < |texts|
    ensures r.currentIndex < |texts|
  {
    var currentText := texts[s.currentIndex];
    if !s.isDeleting then
      if |s.displayText| < |currentText| then s.(displayText := currentText[..|s.displayText| + 1])
      else s.(isDeleting := true)
    else if |s.displayText| > 0 then s.(displayText := s.displayText[..|s.displayText| - 1])
    else TypewriterState(s.displayText, (s.currentIndex + 1) % |texts|, false)
  }

  /** A tick keeps the state valid. */
  lemma TickKeepsValid(texts: seq<string>, s: TypewriterState)
    requires ValidState(texts, s)
    ensures ValidState(texts, Tick(texts, s))
  {
    var d := s.displayText;
    if s.isDeleting && d != [] {
      assert d[..|d| - 1] <= d;
    }
  }

  /** While typing, a tick shows the next character of the title. */
  lemma TickTypes(texts: seq<string>, s: TypewriterState)
    requires ValidState(texts, s) && !s.isDeleting && |s.displayText| < |texts[s.currentIndex]|
    ensures var cur := texts[s.currentIndex];
      Tick(texts, s) == s.(displayText := s.displayText + [cur[|s.displayText|]])
  {
    var cur := texts[s.currentIndex];
    var d := s.displayText;
    assert cur[..|d| + 1] == d + [cur[|d|]];
  }

  /** While deleting, a tick removes the last character shown. */
  lemma TickDeletes(texts: seq<string>, s: TypewriterState)
    requires ValidState(texts, s) && s.isDeleting && s.displayText != []
    ensures var r := Tick(texts, s);
      r.displayText + [s.displayText[|s.displayText| - 1]] == s.displayText
      && r.currentIndex == s.currentIndex && r.isDeleting
  {
    var d := s.displayText;
    assert d[..|d| - 1] + [d[|d| - 1]] == d;
  }

  /** Deletion starts only once the whole title shows. */
  lemma TickStartsDeleting(texts: seq<string>, s: TypewriterState)
    requires ValidState(texts, s) && !s.isDeleting && Tick(texts, s).isDeleting
    ensures s.displayText == texts[s.currentIndex]
    ensures Tick(texts, s) == s.(isDeleting := true)
  {
  }

  /** The title changes only from an empty, deleting display, to the next
      title in turn. */
  lemma TickAdvances(texts: seq<string>, s: TypewriterState)
    requires ValidState(texts, s) && Tick(texts, s).currentIndex != s.currentIndex
    ensures s.isDeleting && s.displayText == []
    ensures Tick(texts, s) == TypewriterState([], (s.currentIndex + 1) % |texts|, false)
  {
  }

  /** The state `n` ticks after `s`. */
  function Iterate(texts: seq<string>, s: TypewriterState, n: nat): (r: TypewriterState)
    requires s.currentIndex < |texts|
    ensures r.currentIndex < |texts|
  {
    if n == 0 then s else Tick(texts, Iterate(texts, s, n - 1))
  }

  /** Milliseconds from `s` until the tick that leaves it. */
  function Delay(texts: seq<string>, s: TypewriterState): (d: nat)
    requires s.currentIndex < |texts|
    ensures s.isDeleting <==> d == 50
    ensures d == 50 || d == 100 || d == 2100
    ensures d == 2100 <==> !s.isDeleting && |s.displayText| >= |texts[s.currentIndex]|
  {
    var holding := !s.isDeleting && |s.displayText| >= |texts[s.currentIndex]|;
    TickDelay(s.isDeleting) + (if holding then HoldDelay else 0)
  }

  /** Milliseconds taken by the first `n` ticks from `s`. */
  function Elapsed(texts: seq<string>, s: TypewriterState, n: nat): (t: nat)
    requires s.currentIndex < |texts|
    ensures 50 * n <= t <= 2100 * n
  {
    if n == 0 then 0 else Elapsed(texts, s, n - 1) + Delay(texts, Iterate(texts, s, n - 1))
  }

  lemma {:induction false} IterateAdd(texts: seq<string>, s: TypewriterState, a: nat, b: nat)
    requires s.currentIndex < |texts|
    ensures Iterate(texts, s, a + b) == Iterate(texts, Iterate(texts, s, a), b)
  {
    if b > 0 {
      IterateAdd(texts, s, a, b - 1);
    }
  }

  lemma Chain(texts: seq<string>, s: TypewriterState, a: nat, t: TypewriterState, b: nat, u: TypewriterState)
    requires s.currentIndex < |texts| && t.currentIndex < |texts|
    requires Iterate(texts, s, a) == t && Iterate(texts, t, b) == u
    ensures Iterate(texts, s, a + b) == u
  {
    IterateAdd(texts, s, a, b);
  }

  /** An empty display about to type title `i`. */
  function Start(i: nat): TypewriterState {
    TypewriterState("", i, false)
  }

  /** The typing phase: after `k` ticks the first `k` characters show. */
  lemma {:induction false} TypingPhase(texts: seq<string>, i: nat, k: nat)
    requires i < |texts| && k <= |texts[i]|
    ensures Iterate(texts, Start(i), k) == TypewriterState(texts[i][..k], i, false)
    ensures Elapsed(texts, Start(i), k) == 100 * k
  {
    if k > 0 {
      TypingPhase(texts, i, k - 1);
    }
  }

  /** The deleting phase: one tick after the title is complete deletion
      starts, and each further tick removes one character. */
  lemma {:induction false} DeletingPhase(texts: seq<string>, i: nat, j: nat)
    requires i < |texts| && j <= |texts[i]|
    ensures Iterate(texts, Start(i), |texts[i]| + 1 + j) == TypewriterState(texts[i][..|texts[i]| - j], i, true)
  {
    var n := |texts[i]|;
    if j == 0 {
      TypingPhase(texts, i, n);
      assert texts[i][..n] == texts[i];
    } else {
      DeletingPhase(texts, i, j - 1);
      var shown := texts[i][..n - (j - 1)];
      assert Iterate(texts, Start(i), n + 1 + j) == Tick(texts, TypewriterState(shown, i, true));
      assert shown[..|shown| - 1] == texts[i][..n - j];
    }
  }

  /** The tick that ends the hold comes 2 s after the one typing the
      last character. */
  lemma HoldTime(texts: seq<string>, i: nat)
    requires i < |texts|
    ensures Elapsed(texts, Start(i), |texts[i]| + 1) == 100 * |texts[i]| + TickDelay(false) + HoldDelay
  {
    var n := |texts[i]|;
    TypingPhase(texts, i, n);
    assert texts[i][..n] == texts[i];
    assert Delay(texts, Iterate(texts, Start(i), n)) == TickDelay(false) + HoldDelay;
  }

  /** Typing takes 100 ms a character, the hold 2 s after the last one, and
      deleting 50 ms a character. */
  lemma {:induction false} DeletingTime(texts: seq<string>, i: nat, j: nat)
    requires i < |texts| && j <= |texts[i]|
    ensures Elapsed(texts, Start(i), |texts[i]| + 1 + j)
      == 100 * |texts[i]| + TickDelay(false) + HoldDelay + 50 * j
  {
    var n := |texts[i]|;
    if j == 0 {
      HoldTime(texts, i);
    } else {
      DeletingTime(texts, i, j - 1);
      DeletingPhase(texts, i, j - 1);
      assert Delay(texts, Iterate(texts, Start(i), n + j)) == 50;
    }
  }

  /** The index of the title after title `i`. */
  function Next(texts: seq<string>, i: nat): (j: nat)
    requires i < |texts|
    ensures j < |texts|
  {
    (i + 1) % |texts|
  }

  /** The number of ticks in the cycle over title `i`. */
  function CycleTicks(texts: seq<string>, i: nat): nat
    requires i < |texts|
  {
    2 * |texts[i]| + 2
  }

  /** A whole cycle over title `i` takes 2·|title| + 2 ticks and
      150·|title| + 2150 milliseconds, and ends ready to type the next title. */
  lemma FullCycle(texts: seq<string>, i: nat)
    requires i < |texts|
    ensures Iterate(texts, Start(i), CycleTicks(texts, i)) == Start(Next(texts, i))
    ensures Elapsed(texts, Start(i), CycleTicks(texts, i)) == 150 * |texts[i]| + 2150
  {
    DeletingPhase(texts, i, |texts[i]|);
    DeletingTime(texts, i, |texts[i]|);
  }

  lemma NextThrice(i: nat)
    requires i < |Texts|
    ensures Next(Texts, Next(Texts, Next(Texts, i))) == i
  {
  }

  /** A cycle over title `i` followed by one over `j` ends ready to type `k`. */
  lemma TwoCycles(texts: seq<string>, i: nat, j: nat, k: nat)
    requires i < |texts| && j < |texts|
    requires j == Next(texts, i) && k == Next(texts, j)
    ensures Iterate(texts, Start(i), CycleTicks(texts, i) + CycleTicks(texts, j)) == Start(k)
  {
    FullCycle(texts, i);
    FullCycle(texts, j);
    Chain(texts, Start(i), CycleTicks(texts, i), Start(j), CycleTicks(texts, j), Start(k));
  }

  /** Three cycles in a row take the titles `i`, `j`, `k` in turn, each the
      one after the last. */
  lemma ThreeCycles(texts: seq<string>, i: nat, j: nat, k: nat, l: nat)
    requires i < |texts| && j < |texts| && k < |texts|
    requires j == Next(texts, i) && k == Next(texts, j) && l == Next(texts, k)
    ensures Iterate(texts, Start(i), CycleTicks(texts, i) + CycleTicks(texts, j) + CycleTicks(texts, k)) == Start(l)
  {
    TwoCycles(texts, i, j, k);
    FullCycle(texts, k);
    Chain(texts, Start(i), CycleTicks(texts, i) + CycleTicks(texts, j), Start(k), CycleTicks(texts, k), Start(l));
  }

  /** After three cycles the headline is back to typing the title it
      started with. */
  lemma ThreeCyclesComeBack(i: nat)
    requires i < |Texts|
    ensures var j := Next(Texts, i); var k := Next(Texts, j);
      Iterate(Texts, Start(i), CycleTicks(Texts, i) + CycleTicks(Texts, j) + CycleTicks(Texts, k)) == Start(i)
  {
    var j := Next(Texts, i);
    var k := Next(Texts, j);
    NextThrice(i);
    ThreeCycles(Texts, i, j, k, i);
  }

  /** The first title's full cycle: 36 ticks, 4.7 seconds. */
  lemma FirstCycleTakes4700Ms()
    ensures Elapsed(Texts, Start(0), CycleTicks(Texts, 0)) == 4700
  {
    FullCycle(Texts, 0);
  }

  /** The component's state, updated in place by each timer firing. */
  class Typewriter {
    var displayText: string
    var currentIndex: nat
    var isDeleting: bool

    function State(): TypewriterState
      reads this
    {
      TypewriterState(displayText, currentIndex, isDeleting)
    }

    predicate Valid()
      reads this
    {
      ValidState(Texts, State())
    }

    /** `useState('')`, `useState(0)`, `useState(false)` */
    constructor ()
      ensures State() == Start(0)
      ensures Valid()
    {
      displayText := "";
      currentIndex := 0;
      isDeleting := false;
    }

    /** The timer callback. */
    method Step()
      requires Valid()
      modifies this
      ensures State() == Tick(Texts, old(State()))
      ensures Valid()
    {
      TickKeepsValid(Texts, State());
      var currentText := Texts[currentIndex];
      if !isDeleting {
        if |displayText| < |currentText| {
          displayText := currentText[..|displayText| + 1];
        } else {
          isDeleting := true;
        }
      } else {
        if |displayText| > 0 {
          displayText := displayText[..|displayText| - 1];
        } else {
          isDeleting := false;
          currentIndex := (currentIndex + 1) % |Texts|;
        }
      }
    }
  }
}
