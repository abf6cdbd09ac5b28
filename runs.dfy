/**
 * Sequences of events fed to the controller: the invariant holds along every
 * run from the mounted shelf, a page turn moves the page exactly once, both
 * animations finish, and two concrete runs that show how the idle descriptor
 * can be missing or stale.
 */
module Runs {
  import opened Layout
  import opened Machine

  /** Feeds `evs` in order; a frame that throws ends the run. */
  function Run(s: State, evs: seq<Event>): Result
    decreases |evs|
  {
    if evs == [] then Result(s, None)
    else
      var r := Step(s, evs[0]);
      if r.thrown.Some? then r else Run(r.state, evs[1..])
  }

  /** Like `Run`, but stops as soon as the phase is back at WAIT. */
  function RunToWait(s: State, evs: seq<Event>): Result
    decreases |evs|
  {
    if s.phase == Wait || evs == [] then Result(s, None)
    else
      var r := Step(s, evs[0]);
      if r.thrown.Some? then r else RunToWait(r.state, evs[1..])
  }

  /** The invariant holds after any run from a state that satisfies it. */
  lemma {:induction false} RunKeepsInv(s: State, evs: seq<Event>)
    requires Inv(s)
    ensures Inv(Run(s, evs).state)
    decreases |evs|
  {
    if evs != [] {
      StepKeepsInv(s, evs[0]);
      var r := Step(s, evs[0]);
      if r.thrown.None? {
        RunKeepsInv(r.state, evs[1..]);
      }
    }
  }

  /**
   * Whatever the user does and however frames are timed, the page index
   * stays within `0..floor(n / 7)`, so the shelf always renders the plain
   * window `[page * 7, min((page + 1) * 7, n))` of at most seven records.
   */
  lemma PageStaysInBounds<T>(collection: seq<T>, evs: seq<Event>)
    ensures var p := Run(Init(|collection|), evs).state.page;
            && 0 <= p <= LastPage(|collection|)
            && 0 <= WindowStart(p) <= WindowEnd(p, |collection|) <= |collection|
            && |Shown(collection, p)| <= PerPage
            && Shown(collection, p) == collection[WindowStart(p)..WindowEnd(p, |collection|)]
  {
    InitInv(|collection|);
    RunKeepsInv(Init(|collection|), evs);
    var t := Run(Init(|collection|), evs).state;
    assert t.n == |collection| by {
      RunKeepsN(Init(|collection|), evs);
    }
    ShownWindow(collection, t.page);
  }

  /** No event changes the collection's length. */
  lemma {:induction false} RunKeepsN(s: State, evs: seq<Event>)
    ensures Run(s, evs).state.n == s.n
    decreases |evs|
  {
    if evs != [] {
      var r := Step(s, evs[0]);
      if r.thrown.None? {
        RunKeepsN(r.state, evs[1..]);
      }
    }
  }

  /**
   * A page turn from page `p0` in direction `d` is under way: requested and
   * not yet started, or in PAGE with the page moved exactly when the
   * one-shot flag is set.
   */
  predicate Turning(s: State, p0: int, d: int) {
    && (d == 1 || d == -1)
    && s.cur.None?
    && match s.phase
       case SetupPageNext => d == 1 && s.page == p0
       case SetupPagePrev => d == -1 && s.page == p0
       case Page => s.dir == d && s.page == (if s.flipped then p0 + d else p0)
       case _ => false
  }

  /** A finished page turn: back in WAIT on page `p`, with `rayPage` back at `[false, 0]`. */
  predicate Landed(s: State, p: int) {
    s.phase == Wait && s.page == p && !s.flipped && s.dir == 0 && s.cur.None?
  }

  /** An accepted paging request starts a turn whose target page is within the bound. */
  lemma RequestStartsTurn(s: State, d: int)
    requires Inv(s) && AfterPaging(s, d) != s
    ensures Turning(AfterPaging(s, d), s.page, d)
    ensures 0 <= s.page + d <= LastPage(s.n)
  {
  }

  /** One event during a turn: the turn goes on, or it lands one page over. */
  lemma TurnStep(s: State, e: Event, p0: int, d: int)
    requires Inv(s) && Turning(s, p0, d)
    ensures Step(s, e).thrown.None?
    ensures Turning(Step(s, e).state, p0, d) || Landed(Step(s, e).state, p0 + d)
  {
  }

  /**
   * During one page turn the page changes by exactly the requested
   * direction, once: until the phase is back at WAIT, the page is the
   * starting page while the flag is clear and the next page once it is set,
   * and the turn can only end after the flag was set, landing on `p0 + d`
   * with the flag and direction reset. Clicks, keys and paging requests that
   * arrive meanwhile change nothing, and the selection pair is kept.
   */
  lemma {:induction false} TurnMovesPageOnce(s: State, evs: seq<Event>, p0: int, d: int)
    requires Inv(s) && Turning(s, p0, d)
    ensures RunToWait(s, evs).thrown.None?
    ensures Inv(RunToWait(s, evs).state)
    ensures Turning(RunToWait(s, evs).state, p0, d) || Landed(RunToWait(s, evs).state, p0 + d)
    ensures RunToWait(s, evs).state.prev == s.prev
    decreases |evs|
  {
    if evs != [] {
      TurnStep(s, evs[0], p0, d);
      StepKeepsInv(s, evs[0]);
      var t := Step(s, evs[0]).state;
      if t.phase != Wait {
        TurnMovesPageOnce(t, evs[1..], p0, d);
      }
    }
  }

  /**
   * How many more frames a turn under way needs once the eased fraction has
   * reached 1: the setup frame, the frame whose new clock reads 0, the frame
   * that moves the page and the frame that returns to WAIT. (A new clock
   * with the flag already set does not arise, but costs one frame more.)
   */
  function TurnFramesLeft(s: State): nat {
    match s.phase
    case SetupPageNext => 4
    case SetupPagePrev => 4
    case Page => (if s.clock.Created? then 1 else 0) + (if s.flipped then 1 else 2)
    case _ => 0
  }

  /** `e` is a frame of a page turn whose eased fraction has reached 1. */
  predicate TurnOver(e: Event) {
    e.FrameTick? && e.eased == 1.0
  }

  /**
   * A page turn finishes: enough frames whose eased fraction has reached 1
   * (four from the request, fewer later) bring any turn under way back to
   * WAIT, one page over.
   */
  lemma {:induction false} TurnCompletes(s: State, p0: int, d: int, frames: seq<Event>)
    requires Inv(s) && Turning(s, p0, d)
    requires |frames| >= TurnFramesLeft(s)
    requires forall i :: 0 <= i < |frames| ==> TurnOver(frames[i])
    ensures RunToWait(s, frames).thrown.None? && Landed(RunToWait(s, frames).state, p0 + d)
    decreases |frames|
  {
    var t := Step(s, frames[0]).state;
    TurnStep(s, frames[0], p0, d);
    StepKeepsInv(s, frames[0]);
    if t.phase != Wait {
      assert TurnFramesLeft(t) < TurnFramesLeft(s);
      TurnCompletes(t, p0, d, frames[1..]);
    }
  }

  /**
   * A selection animation is under way for the pair `{c, p}` on page `pg`:
   * SETUPSELECT with the outgoing record's idle descriptor available, or
   * SELECT.
   */
  predicate Selecting(s: State, c: Option<nat>, p: Option<nat>, pg: int) {
    && (s.phase == SetupSelect || s.phase == Select)
    && s.cur == c && s.prev == p && s.page == pg
    && !(s.phase == SetupSelect && s.prev.Some? && s.idle.None?)
  }

  /** A finished selection animation: back in WAIT with the pair and the page unchanged. */
  predicate Selected(s: State, c: Option<nat>, p: Option<nat>, pg: int) {
    s.phase == Wait && s.cur == c && s.prev == p && s.page == pg
  }

  /** One event during a selection animation: it goes on, or it ends in WAIT. */
  lemma SelectStep(s: State, e: Event, c: Option<nat>, p: Option<nat>, pg: int)
    requires Inv(s) && Selecting(s, c, p, pg)
    ensures Step(s, e).thrown.None?
    ensures Selecting(Step(s, e).state, c, p, pg) || Selected(Step(s, e).state, c, p, pg)
  {
    if e.FrameTick? {
      OnlyIdleUnsetThrows(s, e.elapsed, e.eased);
    }
  }

  /**
   * During a selection animation nothing throws and the selection pair and
   * the page stay as they were: until the phase is back at WAIT it stays in
   * SETUPSELECT or SELECT, whatever events arrive meanwhile.
   */
  lemma {:induction false} SelectionKeepsSelection(s: State, evs: seq<Event>,
                                                  c: Option<nat>, p: Option<nat>, pg: int)
    requires Inv(s) && Selecting(s, c, p, pg)
    ensures RunToWait(s, evs).thrown.None?
    ensures Inv(RunToWait(s, evs).state)
    ensures Selecting(RunToWait(s, evs).state, c, p, pg) || Selected(RunToWait(s, evs).state, c, p, pg)
    decreases |evs|
  {
    if evs != [] {
      SelectStep(s, evs[0], c, p, pg);
      StepKeepsInv(s, evs[0]);
      var t := Step(s, evs[0]).state;
      if t.phase != Wait {
        SelectionKeepsSelection(t, evs[1..], c, p, pg);
      }
    }
  }

  /**
   * How many more frames a selection animation needs once the clock would
   * read at least the longest part's duration: the setup frame, the frame
   * whose new clock reads 0 and the frame that returns to WAIT.
   */
  function SelectFramesLeft(s: State): nat {
    match s.phase
    case SetupSelect => 3
    case Select => if s.clock.Created? then 2 else 1
    case _ => 0
  }

  /** `e` is a frame whose running clock would read at least 1.5 s. */
  predicate SelectOver(e: Event) {
    e.FrameTick? && e.elapsed >= SelectTime()
  }

  /**
   * A selection animation finishes: enough frames whose clock has passed
   * the longest part's duration (three from SETUPSELECT, the first of them
   * reading 0 on the new clock) return to WAIT with the pair and the page
   * unchanged.
   */
  lemma {:induction false} SelectionCompletes(s: State, frames: seq<Event>,
                                             c: Option<nat>, p: Option<nat>, pg: int)
    requires Inv(s) && Selecting(s, c, p, pg)
    requires |frames| >= SelectFramesLeft(s)
    requires forall i :: 0 <= i < |frames| ==> SelectOver(frames[i])
    ensures RunToWait(s, frames).thrown.None? && Selected(RunToWait(s, frames).state, c, p, pg)
    decreases |frames|
  {
    var t := Step(s, frames[0]).state;
    SelectStep(s, frames[0], c, p, pg);
    StepKeepsInv(s, frames[0]);
    if t.phase != Wait {
      assert SelectFramesLeft(t) < SelectFramesLeft(s);
      SelectionCompletes(t, frames[1..], c, p, pg);
    }
  }

  /**
   * The frame callback can throw: after the first selection animation ends,
   * a click on another record that lands before the next frame reaches
   * SETUPSELECT with an outgoing record but a null idle descriptor.
   */
  lemma IdleUnsetReachable()
    ensures Run(Init(14), [
              FrameTick(0.0, 0.0), ClickOn(0, true), FrameTick(0.0, 0.0),
              FrameTick(0.0, 0.0), FrameTick(1.5, 1.0), ClickOn(1, true),
              FrameTick(0.0, 0.0)
            ]).thrown == Some(IdleUnset)
  {
  }

  /** Running `a` then `b` is running `a + b`, unless a frame in `a` threw. */
  lemma {:induction false} RunConcat(s: State, a: seq<Event>, b: seq<Event>)
    ensures Run(s, a + b) ==
              if Run(s, a).thrown.Some? then Run(s, a) else Run(Run(s, a).state, b)
    decreases |a|
  {
    if a == [] {
      assert a + b == b;
    } else {
      assert (a + b)[0] == a[0] && (a + b)[1..] == a[1..] + b;
      var r := Step(s, a[0]);
      if r.thrown.None? {
        RunConcat(r.state, a[1..], b);
      }
    }
  }

  /**
   * The outgoing record's return path can start from another record's idle
   * descriptor: select record 0 and let it idle, select record 1, and click
   * record 2 before any frame runs in WAIT; SETUPSELECT then finds record 1
   * outgoing but the idle descriptor still recorded from record 0.
   */
  lemma StaleIdleReachable()
    ensures var r := Run(Init(14), [
              FrameTick(0.0, 0.0), ClickOn(0, true), FrameTick(0.0, 0.0),
              FrameTick(0.0, 0.0), FrameTick(1.5, 1.0), FrameTick(1.6, 1.0),
              ClickOn(1, true), FrameTick(0.0, 0.0), FrameTick(0.0, 0.0),
              FrameTick(1.5, 1.0), ClickOn(2, true)
            ]);
            && r.thrown.None? && r.state.phase == SetupSelect
            && r.state.prev == Some(1) && r.state.idle == Some(0)
  {
    var first := [FrameTick(0.0, 0.0), ClickOn(0, true), FrameTick(0.0, 0.0)];
    var second := [FrameTick(0.0, 0.0), FrameTick(1.5, 1.0), FrameTick(1.6, 1.0)];
    var third := [ClickOn(1, true), FrameTick(0.0, 0.0), FrameTick(0.0, 0.0)];
    var fourth := [FrameTick(1.5, 1.0), ClickOn(2, true)];
    // record 0 is selected and its animation has started
    var s1 := State(Select, Some(0), None, 0, 14, false, 0, Created, None);
    assert Run(Init(14), first) == Result(s1, None) by {
      assert first[1..][1..][1..] == [];
    }
    // record 0 is idling, with its own idle descriptor
    var s2 := State(Wait, Some(0), None, 0, 14, false, 0, Running, Some(0));
    assert Run(s1, second) == Result(s2, None) by {
      assert second[1..][1..][1..] == [];
    }
    // record 1 is selected at once, and its animation has started
    var s3 := State(Select, Some(1), Some(0), 0, 14, false, 0, Running, Some(0));
    assert Run(s2, third) == Result(s3, None) by {
      assert third[1..][1..][1..] == [];
    }
    RunConcat(s2, third, fourth);
    RunConcat(s1, second, third + fourth);
    RunConcat(Init(14), first, second + (third + fourth));
    assert first + (second + (third + fourth)) == [
              FrameTick(0.0, 0.0), ClickOn(0, true), FrameTick(0.0, 0.0),
              FrameTick(0.0, 0.0), FrameTick(1.5, 1.0), FrameTick(1.6, 1.0),
              ClickOn(1, true), FrameTick(0.0, 0.0), FrameTick(0.0, 0.0),
              FrameTick(1.5, 1.0), ClickOn(2, true)
            ];
  }
}
