/** The binary search over 64-bit numbers with a callback, its wrap-around included. */
module BinarySearch {
  const MAX: nat := 0xFFFF_FFFF_FFFF_FFFF

  /** The callback's answer for a number: -1 to go left, 1 to go right, 0 for a match, or an error. */
  datatype Probe = Answer(result: int) | Error
  datatype Outcome = Found | NotFound | CallbackError | InvalidResult

  type Callback = nat -> Probe

  function Pred(x: nat): nat { if x == 0 then MAX else x - 1 }
  function Succ(x: nat): nat { if x == MAX then 0 else x + 1 }

  /** Neither end can wrap: going left from 0 or right from the largest number is never asked for. */
  predicate NoWrap(start: nat, end: nat, f: Callback) {
    (start == 0 ==> f(0) != Answer(-1)) && (end == MAX ==> f(MAX) != Answer(1))
  }

  ghost predicate Monotone(f: Callback) {
    && (forall x: nat :: x <= MAX ==> f(x) in {Answer(-1), Answer(0), Answer(1)})
    && (forall x: nat, y: nat :: x <= y <= MAX ==> f(x).result >= f(y).result)
  }

  /** The callback sends the search left or right. */
  predicate GoesOn(p: Probe) {
    p in {Answer(-1), Answer(1)}
  }

  /** All these numbers lie in the range and sent the search on. */
  predicate AllGoOn(start: nat, end: nat, f: Callback, asked: seq<nat>)
    decreases |asked|
  {
    asked == [] ||
    (var n := |asked| - 1; start <= asked[n] <= end && GoesOn(f(asked[n])) && AllGoOn(start, end, f, asked[..n]))
  }

  /** The last number asked decides; all before it sent the search on, and if it did too, nothing was found. */
  predicate EndsWith(start: nat, end: nat, f: Callback, asked: seq<nat>, outcome: Outcome) {
    match outcome
    case NotFound => AllGoOn(start, end, f, asked)
    case Found => EndsAt(start, end, f, asked) && f(asked[|asked| - 1]) == Answer(0)
    case CallbackError => EndsAt(start, end, f, asked) && f(asked[|asked| - 1]) == Error
    case InvalidResult => EndsAt(start, end, f, asked) && f(asked[|asked| - 1]) !in {Answer(-1), Answer(0), Answer(1), Error}
  }

  predicate EndsAt(start: nat, end: nat, f: Callback, asked: seq<nat>) {
    asked != [] && start <= asked[|asked| - 1] <= end && AllGoOn(start, end, f, asked[..|asked| - 1])
  }

  function Log2(n: nat): nat {
    if n < 2 then 0 else 1 + Log2(n / 2)
  }

  lemma {:induction false} Log2Monotone(m: nat, n: nat)
    requires m <= n
    ensures Log2(m) <= Log2(n)
  {
    if m >= 2 { Log2Monotone(m / 2, n / 2); }
  }

  /** How many probes a range of this size takes at most. */
  function Budget(size: nat): nat {
    if size == 0 then 0 else Log2(size) + 1
  }

  lemma BudgetHalves(size: nat, part: nat)
    requires size > 0 && part <= size / 2
    ensures 1 + Budget(part) <= Budget(size)
  {
    Log2Monotone(part, size / 2);
  }

  function Size(lo: nat, hi: int): nat {
    if lo <= hi then hi - lo + 1 else 0
  }

  // ------------------------------------------------------ the loop, turn by turn

  datatype State = Running(start: nat, end: nat) | Halted(outcome: Outcome)

  /** One turn of the loop on 64-bit numbers. */
  function Turn(s: State, f: Callback): State {
    if s.Halted? then s
    else if s.start > s.end then Halted(NotFound)
    else
      var mid := s.start + (s.end - s.start) / 2;
      match f(mid)
      case Error => Halted(CallbackError)
      case Answer(r) =>
        if r == -1 then Running(s.start, Pred(mid))
        else if r == 1 then Running(Succ(mid), s.end)
        else if r == 0 then Halted(Found)
        else Halted(InvalidResult)
  }

  function Turns(s: State, f: Callback, n: nat): State
    decreases n
  {
    if n == 0 then s else Turns(Turn(s, f), f, n - 1)
  }

  lemma {:induction false} TurnsSnoc(s: State, f: Callback, n: nat)
    ensures Turns(s, f, n + 1) == Turn(Turns(s, f, n), f)
    decreases n
  {
    if n > 0 {
      TurnsSnoc(Turn(s, f), f, n - 1);
    } else {
      assert Turns(Turn(s, f), f, 0) == Turn(s, f);
    }
  }

  /** After n turns the loop is there. */
  predicate ComesTo(s: State, f: Callback, n: nat, now: State) {
    match now
    case Running(_, _) => Turns(s, f, n) == now
    case Halted(_) => Turns(s, f, n) == now
  }

  /** What a turn halts with it keeps. */
  lemma TurnMore(s: State, f: Callback, n: nat, now: State)
    requires ComesTo(s, f, n, now)
    ensures var next := Turn(now, f); ComesTo(s, f, n + 1, next) && (next.Halted? ==> ComesTo(s, f, n + 2, next))
  {
    TurnsSnoc(s, f, n);
    TurnsSnoc(s, f, n + 1);
  }

  ghost predicate Ends(s: State, f: Callback) {
    exists n :: Turns(s, f, n).Halted?
  }

  /** Where it wraps the range is the whole rest of the numbers again: left of 0 it ends, right of the largest it begins. */
  lemma Wraps(f: Callback, hi: nat)
    ensures f(0) == Answer(-1) && hi <= 1 ==> Turn(Running(0, hi), f) == Running(0, 0xFFFF_FFFF_FFFF_FFFF)
    ensures f(0xFFFF_FFFF_FFFF_FFFF) == Answer(1) ==>
              Turn(Running(0xFFFF_FFFF_FFFF_FFFF, 0xFFFF_FFFF_FFFF_FFFF), f) == Running(0, 0xFFFF_FFFF_FFFF_FFFF)
  {
  }

  /** The budget left is enough for the range left, and no match lies outside it. */
  ghost predicate Narrowed(start: nat, end: nat, lo: nat, hi: nat, f: Callback, probes: nat) {
    && probes + Budget(Size(lo, hi)) <= Budget(Size(start, end))
    && (Monotone(f) ==> forall x :: start <= x <= end && !(lo <= x <= hi) ==> f(x) != Answer(0))
  }

  lemma NarrowMore(start: nat, end: nat, lo: nat, hi: nat, f: Callback, probes: nat)
    requires start <= lo <= hi <= end <= MAX && NoWrap(start, end, f) && Narrowed(start, end, lo, hi, f, probes)
    ensures var mid := lo + (hi - lo) / 2;
            && probes < Budget(Size(start, end))
            && (f(mid) == Answer(-1) ==> 0 < mid && Narrowed(start, end, lo, mid - 1, f, probes + 1))
            && (f(mid) == Answer(1) ==> mid < MAX && Narrowed(start, end, mid + 1, hi, f, probes + 1))
  {
    var mid := lo + (hi - lo) / 2;
    BudgetHalves(Size(lo, hi), Size(lo, mid - 1));
    BudgetHalves(Size(lo, hi), Size(mid + 1, hi));
  }

  lemma AskMore(start: nat, end: nat, f: Callback, asked: seq<nat>, mid: nat)
    requires AllGoOn(start, end, f, asked) && start <= mid <= end
    ensures var more := asked + [mid];
            && (GoesOn(f(mid)) ==> AllGoOn(start, end, f, more))
            && (f(mid) == Answer(0) ==> EndsWith(start, end, f, more, Found))
            && (f(mid) == Error ==> EndsWith(start, end, f, more, CallbackError))
            && (f(mid) !in {Answer(-1), Answer(0), Answer(1), Error} ==> EndsWith(start, end, f, more, InvalidResult))
  {
    assert (asked + [mid])[..|asked|] == asked;
  }

  /** Where the search is: the range left, what was asked, and the turns taken. */
  ghost predicate Searching(whole: State, now: State, f: Callback, asked: seq<nat>) {
    match (whole, now)
    case (Running(start, end), Running(lo, hi)) =>
      && ((start <= lo <= hi + 1 && hi <= end) || (lo == start && hi == end && end < start))
      && Narrowed(start, end, lo, hi, f, |asked|)
      && AllGoOn(start, end, f, asked) && ComesTo(whole, f, |asked|, now)
    case _ => false
  }

  /**
   How the search ends: within floor(log2(size)) + 1 probes, as the last number asked decides, as the loop
   on 64-bit numbers ends; and with a monotone callback it finds a match exactly when there is one.
   */
  ghost predicate Searched(whole: State, f: Callback, asked: seq<nat>, outcome: Outcome) {
    match whole
    case Halted(_) => false
    case Running(start, end) =>
      && |asked| <= Budget(Size(start, end)) && EndsWith(start, end, f, asked, outcome)
      && ComesTo(whole, f, |asked| + 1, Halted(outcome))
      && (Monotone(f) ==> outcome in {Found, NotFound})
      && (Monotone(f) && outcome.NotFound? ==> forall x :: start <= x <= end ==> f(x) != Answer(0))
  }

  lemma Ask(start: nat, end: nat, lo: nat, hi: nat, f: Callback, asked: seq<nat>)
    requires start <= end <= MAX && lo <= hi && NoWrap(start, end, f)
    requires Searching(Running(start, end), Running(lo, hi), f, asked)
    ensures var mid := lo + (hi - lo) / 2;
            match f(mid)
            case Error => Searched(Running(start, end), f, asked + [mid], CallbackError)
            case Answer(r) =>
              if r == -1 then Pred(mid) < hi && Searching(Running(start, end), Running(lo, Pred(mid)), f, asked + [mid])
              else if r == 1 then lo < Succ(mid) && Searching(Running(start, end), Running(Succ(mid), hi), f, asked + [mid])
              else Searched(Running(start, end), f, asked + [mid], if r == 0 then Found else InvalidResult)
  {
    NarrowMore(start, end, lo, hi, f, |asked|);
    TurnMore(Running(start, end), f, |asked|, Running(lo, hi));
    AskMore(start, end, f, asked, lo + (hi - lo) / 2);
  }

  lemma NothingFound(start: nat, end: nat, lo: nat, hi: nat, f: Callback, asked: seq<nat>)
    requires lo > hi && Searching(Running(start, end), Running(lo, hi), f, asked)
    ensures Searched(Running(start, end), f, asked, NotFound)
  {
    TurnMore(Running(start, end), f, |asked|, Running(lo, hi));
  }

  /**
   The search, for any callback that does not make it wrap. The last number asked decides: a match, an
   error, or an answer outside -1, 0 and 1.
   */
  method Search(start: nat, end: nat, f: Callback) returns (outcome: Outcome, probes: nat, ghost asked: seq<nat>)
    requires start <= MAX && end <= MAX && (start <= end ==> NoWrap(start, end, f))
    ensures probes == |asked| && Searched(Running(start, end), f, asked, outcome)
  {
    var lo: nat, hi: nat := start, end;
    probes, asked := 0, [];
    while lo <= hi
      invariant probes == |asked| && Searching(Running(start, end), Running(lo, hi), f, asked)
      decreases if lo <= hi then hi - lo + 1 else 0
    {
      var mid := lo + (hi - lo) / 2;
      Ask(start, end, lo, hi, f, asked);
      probes, asked := probes + 1, asked + [mid];
      match f(mid) {
        case Error => return CallbackError, probes, asked;
        case Answer(r) =>
          if r == -1 {
            hi := Pred(mid);
          } else if r == 1 {
            lo := Succ(mid);
          } else if r == 0 {
            return Found, probes, asked;
          } else {
            return InvalidResult, probes, asked;
          }
      }
    }
    NothingFound(start, end, lo, hi, f, asked);
    outcome := NotFound;
  }

  /** A match inside the range rules wrapping out, so the search then always succeeds. */
  lemma MatchPreventsWrap(start: nat, end: nat, f: Callback, x: nat)
    requires Monotone(f) && start <= x <= end <= MAX && f(x) == Answer(0)
    ensures NoWrap(start, end, f)
  {
    assert f(0).result >= f(x).result >= f(MAX).result;
  }

  // ------------------------------------------------------ when it never ends

  lemma {:induction false} EndsWithoutWrap(lo: nat, hi: nat, f: Callback) returns (n: nat)
    requires lo <= MAX && hi <= MAX && NoWrap(lo, hi, f)
    ensures Turns(Running(lo, hi), f, n).Halted?
    decreases Size(lo, hi)
  {
    var s := Turn(Running(lo, hi), f);
    if s.Halted? {
      n := 1;
      assert Turns(s, f, 0) == s;
    } else {
      n := EndsWithoutWrap(s.start, s.end, f);
      n := n + 1;
    }
  }

  lemma {:induction false} LeftForever(hi: nat, f: Callback, n: nat)
    requires hi <= MAX && forall x: nat :: x <= MAX ==> f(x) == Answer(-1)
    ensures Turns(Running(0, hi), f, n).Running?
    decreases n
  {
    if n > 0 { LeftForever(Pred(hi / 2), f, n - 1); }
  }

  lemma {:induction false} RightForever(lo: nat, f: Callback, n: nat)
    requires lo <= MAX && forall x: nat :: x <= MAX ==> f(x) == Answer(1)
    ensures Turns(Running(lo, MAX), f, n).Running?
    decreases n
  {
    if n > 0 { RightForever(Succ(lo + (MAX - lo) / 2), f, n - 1); }
  }

  /** With a monotone callback the loop ends exactly when the range is empty or neither end can wrap. */
  lemma EndsIffNoWrap(start: nat, end: nat, f: Callback)
    requires start <= 0xFFFF_FFFF_FFFF_FFFF && end <= 0xFFFF_FFFF_FFFF_FFFF && Monotone(f)
    ensures Ends(Running(start, end), f) <==>
            start > end ||
            ((start == 0 ==> f(0) != Answer(-1)) && (end == 0xFFFF_FFFF_FFFF_FFFF ==> f(end) != Answer(1)))
  {
    if start > end {
      assert Turns(Turn(Running(start, end), f), f, 0).Halted? && Turns(Running(start, end), f, 1).Halted?;
    } else if NoWrap(start, end, f) {
      var n := EndsWithoutWrap(start, end, f);
    } else if start == 0 && f(0) == Answer(-1) {
      assert forall x: nat :: x <= MAX ==> f(0).result >= f(x).result;
      forall n ensures Turns(Running(start, end), f, n).Running? { LeftForever(end, f, n); }
    } else {
      assert forall x: nat :: x <= MAX ==> f(x).result >= f(MAX).result;
      forall n ensures Turns(Running(start, end), f, n).Running? { RightForever(start, f, n); }
    }
  }
}
