/**
 * The discrete control layer of the record-shelf viewer in
 * CollectionPage.jsx: the animation phase, the selection pair, the page
 * index, the one-shot page-turn flag with its direction, the phase-local
 * clock and the idle descriptor, with one function per input handler and one
 * for the per-frame switch. Geometry (rays, vectors, rotations, the camera)
 * is left out; the eased fraction and the elapsed time are inputs.
 */
module Machine {
  import opened Layout

  datatype Option<T> = None | Some(value: T)

  /** `vinylAnimStateEnum`: one phase shared by the whole shelf. */
  datatype Phase = Wait | SetupSelect | Select | SetupPagePrev | SetupPageNext | Page

  /**
   * The phase-local `THREE.Clock` held in `clock.current`, reduced to what
   * the machine observes: the ref starts out undefined; a new clock is not
   * running until its first reading starts it; `stop()` leaves it stopped for
   * good.
   */
  datatype Clock = Unset | Created | Running | Stopped

  /** What reading the elapsed time does to a clock that exists. */
  function Read(c: Clock): Clock {
    if c == Created then Running else c
  }

  /**
   * The value a frame works with when `reading` is what a running clock
   * would give: the first reading of a new clock only starts it and yields
   * 0, and so does the eased fraction computed from it (`smootherstep` of 0).
   */
  function Reading(c: Clock, reading: real): real {
    if c.Created? then 0.0 else reading
  }

  /**
   * The controller state. `cur` and `prev` are the selection pair, holding
   * records by their position in the collection; `n` is the collection's
   * length; `flipped` and `dir` are the two slots of `rayPage.current`;
   * `idle` is the record whose resting position `rayIdle.current` recorded
   * (`None` while that ref is still null).
   */
  datatype State = State(
    phase: Phase,
    cur: Option<nat>,
    prev: Option<nat>,
    page: int,
    n: nat,
    flipped: bool,
    dir: int,
    clock: Clock,
    idle: Option<nat>)

  /** The TypeErrors the frame callback can throw. */
  datatype Reason =
    | ClockUnset     // `clock.current` is still undefined
    | IdleUnset      // `rayIdle.current` is still null
    | MeshUnmounted  // a selected record's Vinyl is not rendered, so its mesh ref is null

  /** A frame's new state, and the error it threw, if any. */
  datatype Result = Result(state: State, thrown: Option<Reason>)

  /** Durations of the selection animation's parts, in seconds. */
  const MoveTime: real := 0.5
  const CamPosTime: real := 0.75
  const CamLookTime: real := 0.85
  const RotTime: real := 1.5

  /**
   * `1 / Math.pow(Math.E, 5)` as JavaScript evaluates it: once the eased
   * fraction of a page turn exceeds `1 - Settle` the shelf snaps back.
   */
  const Settle: real := 0.006737946999085469

  function Max(a: real, b: real): real {
    if a <= b then b else a
  }

  /** `Math.max(moveTime, camPosTime, camLookTime, rotTime)`: the longest part. */
  function SelectTime(): (t: real)
    ensures MoveTime <= t && CamPosTime <= t && CamLookTime <= t && RotTime <= t
    ensures t == MoveTime || t == CamPosTime || t == CamLookTime || t == RotTime
  {
    Max(Max(Max(MoveTime, CamPosTime), CamLookTime), RotTime)
  }

  /** The record at position `id` is rendered on the current page. */
  predicate Mounted(s: State, id: nat) {
    Shows(s.n, s.page, id)
  }

  /**
   * The state the first frame sees: the phase ref starts at WAIT, the
   * selection empty, the page 0, `rayPage` at `[false, 0]`, and the
   * selection effect, which also runs when the shelf mounts, has already
   * set SETUPSELECT.
   */
  function Init(n: nat): State {
    State(SetupSelect, None, None, 0, n, false, 0, Unset, None)
  }

  /**
   * `setSelectedVinyl` always stores a new pair, and the effect that depends
   * on it re-arms the machine: every selection change sets SETUPSELECT.
   */
  function Reselect(s: State, c: Option<nat>): State {
    s.(cur := c, prev := s.cur, phase := SetupSelect)
  }

  /**
   * `clickEvent` of the Vinyl showing record `id`; `frontmost` says whether
   * that Vinyl is the first object the click's ray hit.
   */
  function AfterClick(s: State, id: nat, frontmost: bool): (r: State)
    ensures r != s <==> s.phase == Wait && s.cur != Some(id) && frontmost
    ensures r != s ==> r.cur == Some(id) && r.prev == s.cur && r.phase == SetupSelect
    ensures r.page == s.page && r.n == s.n && r.flipped == s.flipped && r.dir == s.dir
    ensures r.clock == s.clock && r.idle == s.idle
  {
    if s.phase != Wait then s
    else if s.cur == Some(id) then s
    else if frontmost then Reselect(s, Some(id))
    else s
  }

  /** `handleESC`: the Escape key deselects, in WAIT only. */
  function AfterKey(s: State, key: string): (r: State)
    ensures r != s <==> key == "Escape" && s.phase == Wait
    ensures r != s ==> r.cur == None && r.prev == s.cur && r.phase == SetupSelect
    ensures r.page == s.page && r.n == s.n && r.flipped == s.flipped && r.dir == s.dir
    ensures r.clock == s.clock && r.idle == s.idle
  {
    if key == "Escape" && s.phase == Wait then Reselect(s, None) else s
  }

  /**
   * `handlePaging(d)`: in WAIT with nothing selected, Prev is accepted when
   * `page - 1 >= 0` and Next when `page + 1 <= floor(n / 7)`; an accepted
   * request only sets the matching setup phase.
   */
  function AfterPaging(s: State, d: int): (r: State)
    ensures r != s <==>
              s.phase == Wait && s.cur.None? &&
              ((d == -1 && s.page - 1 >= 0) || (d == 1 && s.page + 1 <= LastPage(s.n)))
    ensures r != s ==> r == s.(phase := if d == 1 then SetupPageNext else SetupPagePrev)
  {
    if s.phase != Wait || s.cur.Some? then s
    else if d == -1 && s.page - 1 >= 0 then s.(phase := SetupPagePrev)
    else if d == 1 && s.page + 1 <= LastPage(s.n) then s.(phase := SetupPageNext)
    else s
  }

  /** The phase edges a frame may take. */
  predicate Edge(from: Phase, to: Phase) {
    match from
    case Wait => to == Wait
    case SetupSelect => to == Select || to == Wait
    case Select => to == Select || to == Wait
    case SetupPagePrev => to == Page
    case SetupPageNext => to == Page
    case Page => to == Page || to == Wait
  }

  /**
   * One call of the `useFrame` callback. `elapsed` is what the phase-local
   * clock reads once it runs and `eased` is `smootherstep(elapsed / 2, 0, 1)`,
   * the eased fraction of a page turn; a clock just created reads 0 instead.
   */
  function AfterFrame(s: State, elapsed: real, eased: real): (r: Result)
    // a frame never touches the selection or the collection
    ensures r.state.cur == s.cur && r.state.prev == s.prev && r.state.n == s.n
    ensures r.thrown.None? ==> Edge(s.phase, r.state.phase)
    ensures r.thrown.Some? ==> r.state.phase == s.phase
    // the page moves only in PAGE, by the recorded direction, and only while
    // the one-shot flag is still clear
    ensures r.state.page != s.page ==>
              s.phase == Page && !s.flipped && r.state.flipped && r.state.page == s.page + s.dir
    // the setup phases of a page turn record the direction
    ensures s.phase == SetupPageNext ==> r.state.phase == Page && r.state.dir == 1
    ensures s.phase == SetupPagePrev ==> r.state.phase == Page && r.state.dir == -1
    // SETUPSELECT goes back to WAIT exactly when both sides are empty
    ensures s.phase == SetupSelect && r.thrown.None? ==>
              (r.state.phase == Wait <==> s.cur.None? && s.prev.None?)
    // SELECT ends exactly when the longest part of the animation is over
    ensures s.phase == Select && r.thrown.None? ==>
              (r.state.phase == Wait <==> !s.clock.Created? && elapsed >= SelectTime())
    // PAGE: the flag is set on the first frame past the midpoint; the turn
    // ends only on a later frame, and then clears the flag and direction
    ensures s.phase == Page && !s.clock.Unset? && !s.flipped ==>
              r.state.phase == Page && (r.state.flipped <==> !s.clock.Created? && eased > 0.5)
    ensures s.phase == Page && !s.clock.Unset? && s.flipped ==>
              (r.state.phase == Wait <==> !s.clock.Created? && eased > 1.0 - Settle)
    ensures s.phase == Page && r.state.phase == Wait ==> !r.state.flipped && r.state.dir == 0
  {
    match s.phase
    case Wait =>
      if s.cur.None? then Result(s, None)
      else if s.clock.Unset? then Result(s, Some(ClockUnset))
      // a running clock means the idle descriptor was recorded earlier
      else if s.clock.Running? then
        (if s.idle.None? then Result(s, Some(IdleUnset))
         else if Mounted(s, s.cur.value) then Result(s, None)
         else Result(s, Some(MeshUnmounted)))
      // a clock that is not running is replaced, and the idle descriptor is
      // recorded from the selected record's position
      else if Mounted(s, s.cur.value) then Result(s.(clock := Running, idle := s.cur), None)
      else Result(s.(clock := Created), Some(MeshUnmounted))
    case SetupPageNext =>
      Result(s.(dir := 1, clock := Created, phase := Page), None)
    case SetupPagePrev =>
      Result(s.(dir := -1, clock := Created, phase := Page), None)
    case Page =>
      if s.clock.Unset? then Result(s, Some(ClockUnset))
      else
        var x := Reading(s.clock, eased);
        var t := s.(clock := Read(s.clock));
        if x <= 0.5 then Result(t, None)
        else if !t.flipped then Result(t.(page := t.page + t.dir, flipped := true), None)
        else if x <= 1.0 - Settle then Result(t, None)
        else Result(t.(flipped := false, dir := 0, clock := Stopped, phase := Wait), None)
    case SetupSelect =>
      if s.cur.None? && s.prev.None? then Result(s.(phase := Wait), None)
      else if s.cur.Some? && !Mounted(s, s.cur.value) then Result(s, Some(MeshUnmounted))
      // the outgoing record's return path starts from the idle descriptor
      else if s.prev.Some? && s.idle.None? then Result(s, Some(IdleUnset))
      else Result(s.(clock := Created, phase := Select), None)
    case Select =>
      if s.clock.Unset? then Result(s, Some(ClockUnset))
      else
        var e := Reading(s.clock, elapsed);
        var t := s.(clock := Read(s.clock));
        if t.cur.Some? && !Mounted(t, t.cur.value) then Result(t, Some(MeshUnmounted))
        else if t.prev.Some? && !Mounted(t, t.prev.value) then Result(t, Some(MeshUnmounted))
        else if e >= SelectTime() then Result(t.(clock := Stopped, phase := Wait), None)
        else Result(t, None)
  }

  /** What reaches the controller: a click on a Vinyl, a key, a paging button, a frame. */
  datatype Event =
    | ClickOn(id: nat, frontmost: bool)
    | KeyPress(key: string)
    | PageRequest(d: int)
    | FrameTick(elapsed: real, eased: real)

  /** One event; a click reaches a record only if its Vinyl is rendered. */
  function Step(s: State, e: Event): Result {
    match e
    case ClickOn(id, frontmost) =>
      Result(if Mounted(s, id) then AfterClick(s, id, frontmost) else s, None)
    case KeyPress(key) => Result(AfterKey(s, key), None)
    case PageRequest(d) => Result(AfterPaging(s, d), None)
    case FrameTick(elapsed, eased) => AfterFrame(s, elapsed, eased)
  }

  /**
   * The controller invariant. The page stays within `0..floor(n / 7)`; the
   * records the animation touches are rendered; a pending page turn was
   * validated against the bound; `rayPage` is `[false, 0]` outside PAGE; the
   * clock exists wherever it is read; and a running clock in WAIT means the
   * idle descriptor belongs to the selected record.
   */
  ghost predicate Inv(s: State) {
    && 0 <= s.page <= LastPage(s.n)
    && (s.cur.Some? ==> Mounted(s, s.cur.value))
    && ((s.phase == SetupSelect || s.phase == Select) && s.prev.Some? ==> Mounted(s, s.prev.value))
    && (s.phase == SetupPageNext ==> s.cur.None? && s.page + 1 <= LastPage(s.n))
    && (s.phase == SetupPagePrev ==> s.cur.None? && s.page >= 1)
    && (s.phase == Page ==>
          && s.cur.None?
          && (s.dir == 1 || s.dir == -1)
          && (s.clock.Created? || s.clock.Running?)
          && (!s.flipped ==> 0 <= s.page + s.dir <= LastPage(s.n)))
    && (s.phase != Page ==> !s.flipped && s.dir == 0)
    && (s.phase == Select ==> s.clock.Created? || s.clock.Running?)
    && (s.phase == Wait && s.cur.Some? ==> !s.clock.Unset?)
    && (s.phase == Wait && s.cur.Some? && s.clock.Running? ==> s.idle == s.cur)
    && (s.phase == Wait && s.cur.None? ==> !s.clock.Running?)
    && (s.phase == SetupSelect && s.clock.Running? ==> s.prev.Some? && s.idle == s.prev)
  }

  lemma InitInv(n: nat)
    ensures Inv(Init(n))
  {
  }

  /** A click on a rendered record keeps the invariant. */
  lemma ClickKeepsInv(s: State, id: nat, frontmost: bool)
    requires Inv(s) && Mounted(s, id)
    ensures Inv(AfterClick(s, id, frontmost))
  {
  }

  lemma KeyKeepsInv(s: State, key: string)
    requires Inv(s)
    ensures Inv(AfterKey(s, key))
  {
  }

  lemma PagingKeepsInv(s: State, d: int)
    requires Inv(s)
    ensures Inv(AfterPaging(s, d))
  {
  }

  lemma FrameKeepsInv(s: State, elapsed: real, eased: real)
    requires Inv(s)
    ensures Inv(AfterFrame(s, elapsed, eased).state)
  {
  }

  /** Every event keeps the invariant, whether or not the frame threw. */
  lemma StepKeepsInv(s: State, e: Event)
    requires Inv(s)
    ensures Inv(Step(s, e).state)
  {
    match e
    case ClickOn(id, frontmost) =>
      if Mounted(s, id) { ClickKeepsInv(s, id, frontmost); }
    case KeyPress(key) => KeyKeepsInv(s, key);
    case PageRequest(d) => PagingKeepsInv(s, d);
    case FrameTick(elapsed, eased) => FrameKeepsInv(s, elapsed, eased);
  }

  /**
   * Under the invariant the frame callback throws in one case only: a
   * selection change hands SETUPSELECT an outgoing record while no idle
   * descriptor has been recorded yet.
   */
  lemma OnlyIdleUnsetThrows(s: State, elapsed: real, eased: real)
    requires Inv(s)
    ensures AfterFrame(s, elapsed, eased).thrown.Some? <==>
              s.phase == SetupSelect && s.prev.Some? && s.idle.None?
    ensures AfterFrame(s, elapsed, eased).thrown.Some? ==>
              AfterFrame(s, elapsed, eased).thrown == Some(IdleUnset)
  {
  }

  /**
   * When a frame ran in WAIT after the last animation ended (the clock is
   * running), the next selection change hands SETUPSELECT the outgoing
   * record's own idle descriptor, and SETUPSELECT goes on to SELECT.
   */
  lemma IdleFrameArmsReturn(s: State, id: nat, frontmost: bool, key: string, elapsed: real, eased: real)
    requires Inv(s) && s.phase == Wait && s.cur.Some? && Mounted(s, id)
    ensures var w := AfterFrame(s, elapsed, eased).state;
            var c := AfterClick(w, id, frontmost);
            var k := AfterKey(w, key);
            && (c.phase == SetupSelect ==> c.idle == c.prev == s.cur)
            && (k.phase == SetupSelect ==> k.idle == k.prev == s.cur)
            && (c.phase == SetupSelect ==> AfterFrame(c, elapsed, eased).state.phase == Select)
            && (k.phase == SetupSelect ==> AfterFrame(k, elapsed, eased).state.phase == Select)
  {
  }
}
