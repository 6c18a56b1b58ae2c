/**
 * Statements run again when the engine turns them away (src/manager/Contention.ts:17-25, 68-135), and runs of them
 * inside one another: each marks the failure it throws, and one around it does not run again what it finds marked.
 */
module Contention {
  import opened Wrappers

  const ATTEMPTS := 6
  const DEPTH := 10

  /** Which failure it is: one the statement threw, or an error made around one. */
  datatype Which = Thrown(n: nat) | Made(n: nat)

  /** What is thrown: an object, or a bare value, and the failure it wraps. */
  datatype Failure = Failure(which: Which, isObject: bool, cause: Option<Failure>)

  /** Whether the failure, or one under it, down to a depth, is one `matches` takes. */
  predicate Sees(failure: Failure, depth: nat, matches: Failure -> bool)
    decreases depth, failure
  {
    depth > 0 && (matches(failure) || (failure.cause.Some? && Sees(failure.cause.value, depth - 1, matches)))
  }

  predicate AnyCause(failure: Failure, matches: Failure -> bool) {
    Sees(failure, DEPTH, matches)
  }

  method FindCause(failure: Failure, matches: Failure -> bool) returns (found: bool)
    ensures found == AnyCause(failure, matches)
  {
    var cause, depth := Some(failure), 0;
    while cause.Some? && depth < DEPTH
      invariant depth <= DEPTH
      invariant AnyCause(failure, matches) == (cause.Some? && Sees(cause.value, DEPTH - depth, matches))
      decreases DEPTH - depth
    {
      if matches(cause.value) {
        return true;
      }
      cause, depth := cause.value.cause, depth + 1;
    }
    return false;
  }

  /** Only an object can be kept in a set held weakly. */
  function Mark(failure: Failure): set<Which> {
    if failure.isObject then {failure.which} else {}
  }

  function IsMarked(marked: set<Which>): Failure -> bool {
    (f: Failure) => f.isObject && f.which in marked
  }

  /** The failure inside `n` errors of their own, numbered from `id`. */
  function Wrapped(failure: Failure, n: nat, id: nat): Failure {
    if n == 0 then failure else Failure(Made(id), true, Some(Wrapped(failure, n - 1, id + 1)))
  }

  predicate IsBare(failure: Failure) {
    !failure.isObject && failure.cause.None?
  }

  /** What is marked is seen through fewer errors than the depth, and not through more; a bare value never is. */
  lemma {:induction false} WrappedIsSeen(failure: Failure, n: nat, id: nat, depth: nat, marked: set<Which>)
    ensures n < depth && IsMarked(marked)(failure) ==> Sees(Wrapped(failure, n, id), depth, IsMarked(marked))
    ensures (n >= depth || IsBare(failure)) && (forall k | k >= id :: Made(k) !in marked) ==>
      !Sees(Wrapped(failure, n, id), depth, IsMarked(marked))
    decreases n
  {
    if n > 0 && depth > 0 {
      WrappedIsSeen(failure, n - 1, id + 1, depth - 1, marked);
    }
  }

  // ---- One run

  /**
   * How often a run executes its statement from its `e`-th execution on, with `left` attempts, and whether it succeeds.
   */
  function Single(script: nat -> Option<Failure>, contended: Failure -> bool, e: nat, left: nat): (nat, bool)
    decreases left, e
  {
    if left == 0 then (e, false)
    else
      match script(e)
      case None => (e + 1, true)
      case Some(failure) => if contended(failure) then Single(script, contended, e + 1, left - 1) else (e + 1, false)
  }

  lemma {:induction false} AlwaysTurnedAway(
      script: nat -> Option<Failure>, contended: Failure -> bool, e: nat, left: nat)
    requires forall n :: script(n).Some? && contended(script(n).value)
    ensures Single(script, contended, e, left) == (e + left, false)
    decreases left
  {
    if left > 0 {
      AlwaysTurnedAway(script, contended, e + 1, left - 1);
    }
  }

  // ---- Runs inside one another

  /**
   * Runs around one statement: `script` is what its n-th execution throws, `contended(l)` what the run at a level takes
   * for turned away, and `wraps(l)` how many errors the code around the run below puts about what that throws.
   */
  datatype Setup = Setup(script: nat -> Option<Failure>, contended: nat -> Failure -> bool, wraps: nat -> nat)

  /** How often the statement was executed, what runs marked, and the number of the next error made. */
  datatype State = State(executions: nat, givenUp: set<Which>, runAgainAlready: set<Which>, next: nat)

  function GivingUp(s: State, failure: Failure, runAgain: bool): State {
    s.(givenUp := s.givenUp + Mark(failure),
       runAgainAlready := s.runAgainAlready + if runAgain then Mark(failure) else {})
  }

  datatype Outcome = Outcome(state: State, thrown: Option<Failure>)

  /**
   * What the run at a level runs: the statement, or code around the run below, with its errors about what that throws.
   */
  function StatementOf(p: Setup, s: State, level: nat): Outcome
    decreases level, 0, 0
  {
    if level == 0 then Outcome(s.(executions := s.executions + 1), p.script(s.executions))
    else
      var inner := RunOf(p, s, level - 1, 0, None);
      if inner.thrown.None? then inner
      else Outcome(inner.state.(next := inner.state.next + p.wraps(level)),
                   Some(Wrapped(inner.thrown.value, p.wraps(level), inner.state.next)))
  }

  /** Whether the run makes another attempt after what one threw. */
  predicate RunsAgain(p: Setup, s: State, level: nat, failure: Failure) {
    !AnyCause(failure, IsMarked(s.givenUp)) && p.contended(level)(failure)
  }

  /** A run from an attempt on, with the first failure of those before it. */
  function RunOf(p: Setup, s: State, level: nat, attempt: nat, first: Option<Failure>): Outcome
    decreases level, 1, if attempt < ATTEMPTS then ATTEMPTS - attempt else 0
  {
    if attempt >= ATTEMPTS then
      if first.Some? then Outcome(GivingUp(s, first.value, true), first) else Outcome(s, None)
    else
      var tried := StatementOf(p, s, level);
      if tried.thrown.None? then tried
      else
        var given := if first.Some? then first else tried.thrown;
        if RunsAgain(p, tried.state, level, tried.thrown.value) then RunOf(p, tried.state, level, attempt + 1, given)
        else Outcome(GivingUp(tried.state, given.value, first.Some?), given)
  }

  class Runs {
    const p: Setup
    var executions: nat
    var givenUp: set<Which>
    var runAgainAlready: set<Which>
    var next: nat

    constructor (p: Setup)
      ensures this.p == p && Now() == State(0, {}, {}, 0)
    {
      this.p := p;
      executions, givenUp, runAgainAlready, next := 0, {}, {}, 0;
    }

    function Now(): State
      reads this
    {
      State(executions, givenUp, runAgainAlready, next)
    }

    method GiveUp(failure: Failure, runAgain: bool)
      modifies this`givenUp, this`runAgainAlready
      ensures Now() == GivingUp(old(Now()), failure, runAgain)
    {
      if failure.isObject {
        givenUp := givenUp + {failure.which};
        if runAgain {
          runAgainAlready := runAgainAlready + {failure.which};
        }
      }
    }

    method Statement(level: nat) returns (thrown: Option<Failure>)
      modifies this
      ensures Outcome(Now(), thrown) == StatementOf(p, old(Now()), level)
      decreases level, 0
    {
      if level == 0 {
        thrown := p.script(executions);
        executions := executions + 1;
        return;
      }
      thrown := WhenNotContended(level - 1);
      if thrown.Some? {
        thrown := Some(Wrapped(thrown.value, p.wraps(level), next));
        next := next + p.wraps(level);
      }
    }

    method WhenNotContended(level: nat) returns (thrown: Option<Failure>)
      modifies this
      ensures Outcome(Now(), thrown) == RunOf(p, old(Now()), level, 0, None)
      decreases level, 1
    {
      var first: Option<Failure> := None;
      var attempt := 0;
      while attempt < ATTEMPTS
        invariant attempt <= ATTEMPTS && (first.None? <==> attempt == 0)
        invariant RunOf(p, old(Now()), level, 0, None) == RunOf(p, Now(), level, attempt, first)
        decreases ATTEMPTS - attempt
      {
        var failure := Statement(level);
        if failure.None? {
          return None;
        }
        var gaveUpOn := FindCause(failure.value, IsMarked(givenUp));
        if gaveUpOn || !p.contended(level)(failure.value) {
          thrown := if first.Some? then first else failure;
          GiveUp(thrown.value, first.Some?);
          return;
        }
        first := if first.Some? then first else failure;
        attempt := attempt + 1;
      }
      GiveUp(first.value, true);
      return first;
    }
  }

  // ---- Attempts are not multiplied

  /** No failure still to come is one a run threw before. */
  ghost predicate Fresh(p: Setup, s: State) {
    forall n | n >= s.executions && p.script(n).Some? :: !AnyCause(p.script(n).value, IsMarked(s.givenUp))
  }

  /** Each run sees what the run inside it threw: an object, in fewer errors than it looks through. */
  ghost predicate Seen(p: Setup, level: nat) {
    (forall n | p.script(n).Some? :: p.script(n).value.isObject) && forall l | 0 < l <= level :: p.wraps(l) < DEPTH
  }

  /** One run: it throws its first failure, marked, as run again too where it ran the statement more than once. */
  lemma {:induction false} OneRun(p: Setup, s: State, attempt: nat, first: Option<Failure>)
    requires Fresh(p, s) && attempt <= ATTEMPTS && (first.None? <==> attempt == 0)
    ensures var r := RunOf(p, s, 0, attempt, first);
      && (r.state.executions, r.thrown.None?) == Single(p.script, p.contended(0), s.executions, ATTEMPTS - attempt)
      && (r.thrown.Some? ==>
            && r.thrown == (if first.Some? then first else p.script(s.executions))
            && r.state.givenUp == s.givenUp + Mark(r.thrown.value)
            && r.state.runAgainAlready == s.runAgainAlready
                 + (if attempt > 0 || r.state.executions > s.executions + 1 then Mark(r.thrown.value) else {}))
    decreases ATTEMPTS - attempt
  {
    if attempt < ATTEMPTS {
      var tried := StatementOf(p, s, 0);
      if tried.thrown.Some? && RunsAgain(p, tried.state, 0, tried.thrown.value) {
        OneRun(p, tried.state, attempt + 1, if first.Some? then first else tried.thrown);
      }
    }
  }

  /**
   * However many runs there are one inside another, the statement is executed as often as by one alone, and the failure
   * thrown is marked: none of the runs around the first runs again.
   */
  lemma {:induction false} NestedRunsDoNotMultiply(p: Setup, s: State, level: nat)
    requires Fresh(p, s) && Seen(p, level)
    ensures var r := RunOf(p, s, level, 0, None);
      && (r.state.executions, r.thrown.None?) == Single(p.script, p.contended(0), s.executions, ATTEMPTS)
      && (r.thrown.Some? ==> r.thrown.value.isObject && IsMarked(r.state.givenUp)(r.thrown.value))
  {
    if level == 0 {
      OneRun(p, s, 0, None);
    } else {
      NestedRunsDoNotMultiply(p, s, level - 1);
      var inner := RunOf(p, s, level - 1, 0, None);
      if inner.thrown.Some? {
        WrappedIsSeen(inner.thrown.value, p.wraps(level), inner.state.next, DEPTH, inner.state.givenUp);
      }
    }
  }

  /** A statement always turned away is executed six times, whatever the number of runs around it. */
  lemma AlwaysSixTimes(p: Setup, s: State, level: nat)
    requires Fresh(p, s) && Seen(p, level)
    requires forall n :: p.script(n).Some? && p.contended(0)(p.script(n).value)
    ensures var r := RunOf(p, s, level, 0, None); r.state.executions == s.executions + 6 && r.thrown.Some?
  {
    NestedRunsDoNotMultiply(p, s, level);
    AlwaysTurnedAway(p.script, p.contended(0), s.executions, ATTEMPTS);
  }

  // ---- Where they are

  /** The executions of so many attempts that each take `each`. */
  function Times(attempts: nat, each: nat): nat {
    if attempts == 0 then 0 else Times(attempts - 1, each) + each
  }

  /** Of a bare value: no code around the runs up to this level has put an error about it. */
  predicate StaysBare(wraps: nat -> nat, level: nat) {
    forall l | 0 < l <= level :: wraps(l) == 0
  }

  /** Whether a run at a level cannot see that the one inside it gave up: too many errors about it, or a bare value. */
  predicate CannotSee(wraps: nat -> nat, level: nat, bare: bool)
    requires level > 0
  {
    wraps(level) >= DEPTH || (bare && StaysBare(wraps, level - 1))
  }

  /** How often nested runs execute a statement that is always turned away. */
  function Executions(wraps: nat -> nat, level: nat, bare: bool): nat
    decreases level, 1
  {
    Times(if level == 0 || CannotSee(wraps, level, bare) then ATTEMPTS else 1, Each(wraps, level, bare))
  }

  /** How often one attempt of the run at a level does. */
  function Each(wraps: nat -> nat, level: nat, bare: bool): nat
    decreases level, 0
  {
    if level == 0 then 1 else Executions(wraps, level - 1, bare)
  }

  /** Every execution is turned away, with an object of its own or with a bare value. */
  ghost predicate Always(p: Setup, bare: bool) {
    && (forall n :: p.script(n) == Some(Failure(Thrown(n), !bare, None)))
    && forall l, f :: p.contended(l)(f)
  }

  predicate Known(s: State, which: Which) {
    match which
    case Thrown(n) => n < s.executions
    case Made(n) => n < s.next
  }

  ghost predicate MarksAreKnown(s: State) {
    forall which <- s.givenUp :: Known(s, which)
  }

  /** What is thrown at a level: the bare value still, or an object that was met before. */
  predicate IsThrown(p: Setup, s: State, level: nat, bare: bool, thrown: Option<Failure>) {
    && thrown.Some?
    && if bare && StaysBare(p.wraps, level) then IsBare(thrown.value)
       else thrown.value.isObject && Known(s, thrown.value.which)
  }

  lemma {:induction false} AlwaysAttempts(
      p: Setup, s: State, level: nat, bare: bool, attempt: nat, first: Option<Failure>)
    requires Always(p, bare) && MarksAreKnown(s) && attempt <= ATTEMPTS && (first.None? <==> attempt == 0)
    requires level == 0 || CannotSee(p.wraps, level, bare)
    requires first.Some? ==> IsThrown(p, s, level, bare, first)
    ensures var r := RunOf(p, s, level, attempt, first);
      && MarksAreKnown(r.state) && r.state.next >= s.next
      && r.state.executions == s.executions + Times(ATTEMPTS - attempt, Each(p.wraps, level, bare))
      && IsThrown(p, r.state, level, bare, r.thrown) && r.state.givenUp >= Mark(r.thrown.value)
    decreases level, 1, ATTEMPTS - attempt
  {
    if attempt < ATTEMPTS {
      AlwaysAttempt(p, s, level, bare);
      var tried := StatementOf(p, s, level);
      AlwaysAttempts(p, tried.state, level, bare, attempt + 1, if first.Some? then first else tried.thrown);
    }
  }

  /** One attempt of a run that cannot see: it takes what it met for a failure of its own. */
  lemma {:induction false} AlwaysAttempt(p: Setup, s: State, level: nat, bare: bool)
    requires Always(p, bare) && MarksAreKnown(s)
    requires level == 0 || CannotSee(p.wraps, level, bare)
    ensures var r := StatementOf(p, s, level);
      && MarksAreKnown(r.state) && r.state.next >= s.next
      && r.state.executions == s.executions + Each(p.wraps, level, bare)
      && IsThrown(p, r.state, level, bare, r.thrown) && !AnyCause(r.thrown.value, IsMarked(r.state.givenUp))
    decreases level, 0, 0
  {
    if level > 0 {
      AlwaysRun(p, s, level - 1, bare);
      var inner := RunOf(p, s, level - 1, 0, None);
      WrappedIsSeen(inner.thrown.value, p.wraps(level), inner.state.next, DEPTH, inner.state.givenUp);
    }
  }

  lemma {:induction false} AlwaysRun(p: Setup, s: State, level: nat, bare: bool)
    requires Always(p, bare) && MarksAreKnown(s)
    ensures var r := RunOf(p, s, level, 0, None);
      && MarksAreKnown(r.state) && r.state.next >= s.next
      && r.state.executions == s.executions + Executions(p.wraps, level, bare)
      && IsThrown(p, r.state, level, bare, r.thrown) && r.state.givenUp >= Mark(r.thrown.value)
    decreases level, 2, 0
  {
    if level == 0 || CannotSee(p.wraps, level, bare) {
      AlwaysAttempts(p, s, level, bare, 0, None);
    } else {
      AlwaysRun(p, s, level - 1, bare);
      var inner := RunOf(p, s, level - 1, 0, None);
      WrappedIsSeen(inner.thrown.value, p.wraps(level), inner.state.next, DEPTH, inner.state.givenUp);
      assert Times(1, Each(p.wraps, level, bare)) == Each(p.wraps, level, bare);
    }
  }

  // ---- Exactly where they are

  const START := State(0, {}, {}, 0)

  ghost predicate OfKind(script: nat -> Option<Failure>, bare: bool) {
    forall n | script(n).Some? :: if bare then IsBare(script(n).value) else script(n).value.isObject
  }

  lemma {:induction false} NothingIsMarked(failure: Failure, depth: nat)
    ensures !Sees(failure, depth, IsMarked({}))
    decreases depth
  {
    if depth > 0 && failure.cause.Some? {
      NothingIsMarked(failure.cause.value, depth - 1);
    }
  }

  lemma StartIsFresh(p: Setup)
    ensures Fresh(p, START)
  {
    forall n | p.script(n).Some? ensures !AnyCause(p.script(n).value, IsMarked({})) {
      NothingIsMarked(p.script(n).value, DEPTH);
    }
  }

  lemma CannotSeeIs(wraps: nat -> nat, level: nat, bare: bool)
    ensures (forall l | 0 < l <= level :: !CannotSee(wraps, l, bare))
      <==> if bare then level == 0 else forall l | 0 < l <= level :: wraps(l) < DEPTH
  {
    assert bare && level > 0 ==> CannotSee(wraps, 1, bare);
    if forall l | 0 < l <= level :: !CannotSee(wraps, l, bare) {
      forall l | 0 < l <= level ensures wraps(l) < DEPTH {
        assert !CannotSee(wraps, l, bare);
      }
    }
  }

  /**
   * Whatever the statement throws, of that kind, and whatever is taken for turned away, it is executed as by one run.
   */
  ghost predicate NeverMultiplies(wraps: nat -> nat, level: nat, bare: bool) {
    forall script, contended | OfKind(script, bare) ::
      RunOf(Setup(script, contended, wraps), START, level, 0, None).state.executions
        == Single(script, contended(0), 0, ATTEMPTS).0
  }

  lemma {:induction false} TimesGrows(attempts: nat, each: nat)
    requires attempts >= 1
    ensures Times(attempts, each) >= each && (attempts >= 2 && each >= 1 ==> Times(attempts, each) > each)
  {
    if attempts > 1 {
      TimesGrows(attempts - 1, each);
    }
  }

  lemma SixTimes()
    ensures Times(ATTEMPTS, 1) == 6
  {
    assert Times(1, 1) == 1 && Times(2, 1) == 2 && Times(3, 1) == 3 && Times(4, 1) == 4 && Times(5, 1) == 5;
  }

  /** A statement always turned away is executed more than six times as soon as one run cannot see what it should. */
  lemma {:induction false} MoreThanSix(wraps: nat -> nat, level: nat, bare: bool)
    ensures Executions(wraps, level, bare) >= 6
    ensures (exists l :: 0 < l <= level && CannotSee(wraps, l, bare)) ==> Executions(wraps, level, bare) > 6
  {
    if level == 0 {
      SixTimes();
    } else {
      MoreThanSix(wraps, level - 1, bare);
      TimesGrows(ATTEMPTS, Each(wraps, level, bare));
      TimesGrows(1, Each(wraps, level, bare));
    }
  }

  /**
   * Nested runs never multiply their attempts if and only if each sees what the one inside it threw: that is, of
   * objects, it is wrapped in fewer errors than a run looks through, and, of bare values, there is but one run.
   */
  lemma MultipliesExactly(wraps: nat -> nat, level: nat, bare: bool)
    ensures NeverMultiplies(wraps, level, bare)
      <==> if bare then level == 0 else forall l | 0 < l <= level :: wraps(l) < DEPTH
  {
    CannotSeeIs(wraps, level, bare);
    if forall l | 0 < l <= level :: !CannotSee(wraps, l, bare) {
      forall script, contended | OfKind(script, bare)
        ensures RunOf(Setup(script, contended, wraps), START, level, 0, None).state.executions
          == Single(script, contended(0), 0, ATTEMPTS).0
      {
        var p := Setup(script, contended, wraps);
        StartIsFresh(p);
        if bare {
          OneRun(p, START, 0, None);
        } else {
          NestedRunsDoNotMultiply(p, START, level);
        }
      }
    } else {
      TurnedAwayMultiplies(wraps, level, bare);
    }
  }

  /** And where one does not, a statement that is always turned away is executed more often. */
  lemma TurnedAwayMultiplies(wraps: nat -> nat, level: nat, bare: bool)
    requires exists l :: 0 < l <= level && CannotSee(wraps, l, bare)
    ensures !NeverMultiplies(wraps, level, bare)
  {
    var script := (n: nat) => Some(Failure(Thrown(n), !bare, None));
    var contended := (l: nat) => (f: Failure) => true;
    var p := Setup(script, contended, wraps);
    AlwaysRun(p, START, level, bare);
    MoreThanSix(wraps, level, bare);
    AlwaysTurnedAway(script, contended(0), 0, ATTEMPTS);
    assert OfKind(script, bare);
  }

  /** With every run unable to see, each multiplies by six. */
  lemma {:induction false} UnseenRunsMultiply(p: Setup, s: State, level: nat, bare: bool)
    requires Always(p, bare) && MarksAreKnown(s)
    requires forall l | 0 < l <= level :: CannotSee(p.wraps, l, bare)
    ensures RunOf(p, s, level, 0, None).state.executions == s.executions + Power(level + 1)
    ensures Power(1) == 6 && Power(2) == 36
  {
    AlwaysRun(p, s, level, bare);
    AllUnseen(p.wraps, level, bare);
    SixTimes();
    assert Times(1, 6) == 6 && Times(2, 6) == 12 && Times(3, 6) == 18 && Times(4, 6) == 24 && Times(5, 6) == 30;
  }

  /** The executions of so many runs one inside the other, each running the one inside it as often as it may. */
  function Power(runs: nat): nat {
    if runs == 0 then 1 else Times(ATTEMPTS, Power(runs - 1))
  }

  lemma {:induction false} AllUnseen(wraps: nat -> nat, level: nat, bare: bool)
    requires forall l | 0 < l <= level :: CannotSee(wraps, l, bare)
    ensures Executions(wraps, level, bare) == Power(level + 1)
  {
    if level > 0 {
      AllUnseen(wraps, level - 1, bare);
    }
  }
}
