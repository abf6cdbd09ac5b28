/**
 * The shelf controller as the component keeps it: mutable fields for the
 * phase ref, the selection and page state, `rayPage`, the clock ref and the
 * idle-descriptor ref, with the input handlers and the frame callback as
 * methods that update them in place. Each method is proved against the
 * matching step function of `Machine` and keeps `Machine.Inv`.
 */
module Viewer {
  import opened Layout
  import opened Machine

  class CollectionPage {
    var phase: Phase        // animState.current
    var cur: Option<nat>    // selectedVinyl.cur
    var prev: Option<nat>   // selectedVinyl.prev
    var page: int           // page
    const n: nat            // collection.length
    var flipped: bool       // rayPage.current[0]
    var dir: int            // rayPage.current[1]
    var clock: Clock        // clock.current
    var idle: Option<nat>   // rayIdle.current

    function Snapshot(): State
      reads this
    {
      State(phase, cur, prev, page, n, flipped, dir, clock, idle)
    }

    ghost predicate Valid()
      reads this
    {
      Inv(Snapshot())
    }

    /** The shelf as mounted over a collection of `count` records. */
    constructor (count: nat)
      ensures Valid() && Snapshot() == Init(count)
    {
      phase, cur, prev, page, n := SetupSelect, None, None, 0, count;
      flipped, dir, clock, idle := false, 0, Unset, None;
      InitInv(count);
    }

    /** `clickEvent` of the Vinyl that renders record `id`. */
    method Click(id: nat, frontmost: bool)
      requires Valid() && Mounted(Snapshot(), id)
      modifies this
      ensures Valid() && Snapshot() == AfterClick(old(Snapshot()), id, frontmost)
      ensures old(phase) != Wait ==> unchanged(this)
    {
      ClickKeepsInv(Snapshot(), id, frontmost);
      if phase != Wait {
        return;
      } else if cur == Some(id) {
        return;
      } else if frontmost {
        cur, prev := Some(id), cur;
        phase := SetupSelect;
      }
    }

    /** `handleESC`. */
    method KeyDown(key: string)
      requires Valid()
      modifies this
      ensures Valid() && Snapshot() == AfterKey(old(Snapshot()), key)
      ensures old(phase) != Wait ==> unchanged(this)
    {
      KeyKeepsInv(Snapshot(), key);
      if key == "Escape" && phase == Wait {
        cur, prev := None, cur;
        phase := SetupSelect;
      }
    }

    /** `handlePaging(d)`. */
    method Paging(d: int)
      requires Valid()
      modifies this
      ensures Valid() && Snapshot() == AfterPaging(old(Snapshot()), d)
      ensures old(phase) != Wait || old(cur).Some? ==> unchanged(this)
      ensures cur == old(cur) && prev == old(prev) && page == old(page)
    {
      PagingKeepsInv(Snapshot(), d);
      if phase != Wait || cur.Some? {
        return;
      } else if d == -1 && page - 1 >= 0 {
        phase := SetupPagePrev;
      } else if d == 1 && page + 1 <= LastPage(n) {
        phase := SetupPageNext;
      }
    }

    /**
     * The `useFrame` callback. `elapsed` is the clock's reading once it runs
     * and `eased` the page turn's eased fraction (a new clock reads 0); `thrown` is the TypeError the callback
     * would throw, if any, after the updates made before it.
     */
    method Frame(elapsed: real, eased: real) returns (thrown: Option<Reason>)
      requires Valid()
      modifies this
      ensures Valid()
      ensures Snapshot() == AfterFrame(old(Snapshot()), elapsed, eased).state
      ensures thrown == AfterFrame(old(Snapshot()), elapsed, eased).thrown
      ensures thrown.Some? <==> old(phase) == SetupSelect && old(prev).Some? && old(idle).None?
    {
      ghost var before := Snapshot();
      FrameKeepsInv(before, elapsed, eased);
      OnlyIdleUnsetThrows(before, elapsed, eased);
      thrown := None;
      match phase
      case Wait =>
        if cur.None? {
          return;
        }
        if clock.Unset? {
          thrown := Some(ClockUnset);
          return;
        }
        if !clock.Running? {
          clock := Created;
          if !Mounted(Snapshot(), cur.value) {
            thrown := Some(MeshUnmounted);
            return;
          }
          idle := cur;
          clock := Running;
        } else if idle.None? {
          thrown := Some(IdleUnset);
        } else if !Mounted(Snapshot(), cur.value) {
          thrown := Some(MeshUnmounted);
        }
      case SetupPageNext =>
        dir := 1;
        clock := Created;
        phase := Page;
      case SetupPagePrev =>
        dir := -1;
        clock := Created;
        phase := Page;
      case Page =>
        if clock.Unset? {
          thrown := Some(ClockUnset);
          return;
        }
        var fraction := Reading(clock, eased);
        clock := Read(clock);
        if fraction <= 0.5 {
        } else if !flipped {
          page := page + dir;
          flipped := true;
        } else if fraction <= 1.0 - Settle {
        } else {
          flipped, dir := false, 0;
          clock := Stopped;
          phase := Wait;
        }
      case SetupSelect =>
        if cur.None? && prev.None? {
          phase := Wait;
          return;
        }
        if cur.Some? && !Mounted(Snapshot(), cur.value) {
          thrown := Some(MeshUnmounted);
          return;
        }
        if prev.Some? && idle.None? {
          thrown := Some(IdleUnset);
          return;
        }
        clock := Created;
        phase := Select;
      case Select =>
        if clock.Unset? {
          thrown := Some(ClockUnset);
          return;
        }
        var reading := Reading(clock, elapsed);
        clock := Read(clock);
        if cur.Some? && !Mounted(Snapshot(), cur.value) {
          thrown := Some(MeshUnmounted);
          return;
        }
        if prev.Some? && !Mounted(Snapshot(), prev.value) {
          thrown := Some(MeshUnmounted);
          return;
        }
        if reading >= SelectTime() {
          clock := Stopped;
          phase := Wait;
        }
    }
  }
}
