# Record-shelf controller, modelled in Dafny

This project models the discrete control layer of the record-shelf viewer in
`client/src/components/CollectionPage.jsx`. The viewer shows a collection of
records on a 3D shelf, seven to a page. Clicking a record pulls it forward.
Escape puts it back. Prev and Next turn the shelf to another page. One
animation phase, shared by the whole shelf, decides what each rendered frame
does.

The model has four modules:

- `Layout` covers the integer arithmetic. It has the page bound `floor(n / 7)`,
  JavaScript's `Array.prototype.slice` as the page window uses it, and the
  4-column grid slot and resting position of each shown record.
- `Machine` holds the controller state as a datatype:
  - the phase;
  - the selection pair `{cur, prev}`, with records given by their position in the collection;
  - the page;
  - the collection length;
  - the one-shot flag and direction of `rayPage`;
  - the phase-local clock, reduced to unset, created, running or stopped;
  - the idle descriptor `rayIdle`, given as the record whose resting position it recorded.

  It has one function per input handler and one for the per-frame `switch`,
  and an invariant `Inv` that every event keeps. A frame returns the new
  state together with the TypeError the callback would throw, if any.
- `Runs` feeds sequences of events to the controller. It proves the page
  bound along every run, that a page turn moves the page exactly once, and
  that both animations finish without touching the selection. Two concrete runs show how the idle descriptor
  can be missing or stale.
- `Viewer` is the controller as the component keeps it. The class
  `CollectionPage` has mutable fields, and the handlers and the frame
  callback are methods that update them in place. Each method is proved
  against the matching `Machine` function and keeps `Inv`.

What the proofs show about the code as written:

- The page index stays within `0..floor(n / 7)`. So the rendered slice is the
  window `[page * 7, min((page + 1) * 7, n))`, which holds at most seven records.
- When `n` is a positive multiple of seven, the last page that Next admits
  shows no records (`Layout.PageSizes`).
- Under the invariant, a frame can throw in one case only.
  - It happens when a selection change moves a selected record into `prev`
    while no record has idled since the shelf was mounted.
  - SETUPSELECT then reads `rayIdle.current` while it is still null.
  - `Runs.IdleUnsetReachable` gives such a run.
- When the selection changes again before any frame has run in WAIT, the
  idle descriptor can still belong to an older record. The outgoing record's
  return path then starts from that older record's position and ends in its
  shelf slot, so the outgoing record comes to rest in the older record's
  place (`Runs.StaleIdleReachable`).
- Every record the animation touches is rendered on the current page. So the
  mesh refs it reads are live.

In these details the model follows the code exactly:

- The page changes on the first frame whose eased fraction exceeds 0.5, not
  exactly at the midpoint.
- SELECT ends on the first frame whose clock reads at least 1.5 s (`>=`).
- PAGE returns to WAIT only on a frame after the one that moved the page.
- The page index changes in the middle of a turn, not at its end.

## Model

| member | source | states |
|---|---|---|
| `Layout.Clamp` | client/src/components/CollectionPage.jsx:305 | a slice argument becomes a position in `0..len`: kept when inside, counted from the end when negative, clamped otherwise |
| `Layout.Slice` | client/src/components/CollectionPage.jsx:305 | `slice(start, end)` returns the contiguous run of records from the clamped start, as long as the clamped ends allow, empty when they cross |
| `Layout.ShownWindow` | client/src/components/CollectionPage.jsx:305 | within the page bound the rendered slice is exactly the window `[page*7, min((page+1)*7, n))`, with `0 <= start <= end <= n`, at most 7 records, and a record is rendered iff its position lies in it |
| `Layout.PageSizes` | client/src/components/CollectionPage.jsx:373-378 | every admitted page before `floor(n/7)` shows 7 records and page `floor(n/7)` shows `n % 7`, so it is empty when 7 divides `n` |
| `Layout.EveryRecordOnOnePage` | client/src/components/CollectionPage.jsx:305 | the record at position `i` is shown on page `i/7` at window index `i%7`, that page is admitted by the bound, and no other non-negative page shows it |
| `Layout.SlotOf` | client/src/components/CollectionPage.jsx:57-58 | a window index below 7 gets column `idx % 4` in 0..3 and row `idx / 4` in 0..1, and `4*row + column` gives the index back, so slots are distinct |
| `Layout.HomePositionsDistinct` | client/src/components/CollectionPage.jsx:56-63 | two different window indices of one page rest at different shelf positions |
| `Machine.SelectTime` | client/src/components/CollectionPage.jsx:289 | the SELECT deadline is the largest of the four part durations and equal to one of them |
| `Machine.AfterClick` | client/src/components/CollectionPage.jsx:65-73 | a click changes the state iff the phase is WAIT, the record is not already `cur` and it is the frontmost hit; then the selection becomes `{cur: clicked, prev: old cur}` and the phase SETUPSELECT, and nothing else changes |
| `Machine.AfterKey` | client/src/components/CollectionPage.jsx:365-369 | a key changes the state iff it is Escape in WAIT; then the selection becomes `{cur: empty, prev: old cur}` and the phase SETUPSELECT |
| `Machine.AfterPaging` | client/src/components/CollectionPage.jsx:371-379 | a paging request changes the state iff the phase is WAIT, nothing is selected, and it is Prev with `page-1 >= 0` or Next with `page+1 <= floor(n/7)`; it then only sets SETUPPAGEPREV or SETUPPAGENEXT |
| `Machine.AfterFrame` | client/src/components/CollectionPage.jsx:129-296 | a frame never changes the selection; phases move only along the machine's edges; SETUPPAGENEXT/PREV record direction +1/-1 and enter PAGE in one frame; SETUPSELECT returns to WAIT iff both sides are empty; SELECT returns to WAIT iff its clock was already running and reads `>= 1.5`; in PAGE, where a new clock also reads 0, the flag is set on the first frame past 0.5, the page moves only then and by `dir`, and the exit needs the flag set and resets `[false, 0]` |
| `Machine.InitInv` | client/src/components/CollectionPage.jsx:320-327 | the mounted shelf (page 0, empty selection, `rayPage` `[false, 0]`, phase re-armed by the selection effect) satisfies the invariant |
| `Machine.ClickKeepsInv` | client/src/components/CollectionPage.jsx:65-73 | a click on a rendered record keeps the invariant |
| `Machine.KeyKeepsInv` | client/src/components/CollectionPage.jsx:365-369 | the Escape handler keeps the invariant |
| `Machine.PagingKeepsInv` | client/src/components/CollectionPage.jsx:371-379 | the paging handler keeps the invariant, including the page bound of a pending turn |
| `Machine.FrameKeepsInv` | client/src/components/CollectionPage.jsx:129-296 | every frame keeps the invariant, whether or not it throws |
| `Machine.StepKeepsInv` | client/src/components/CollectionPage.jsx:125-127 | every event, with each selection change re-arming SETUPSELECT, keeps the invariant |
| `Machine.OnlyIdleUnsetThrows` | client/src/components/CollectionPage.jsx:250-252 | under the invariant a frame throws iff it is in SETUPSELECT with an outgoing record and no idle descriptor, and the error is then the null `rayIdle` |
| `Machine.IdleFrameArmsReturn` | client/src/components/CollectionPage.jsx:136-143 | after one WAIT frame with a selection, a click or Escape hands SETUPSELECT the outgoing record's own idle descriptor, and SETUPSELECT moves on to SELECT |
| `Runs.RunKeepsInv` | client/src/components/CollectionPage.jsx:129-296 | the invariant holds after any sequence of events from a state that satisfies it |
| `Runs.PageStaysInBounds` | client/src/components/CollectionPage.jsx:373-378 | after any run from the mounted shelf, `0 <= page <= floor(n/7)` and the rendered slice is the window of at most 7 records with `0 <= start <= end <= n` |
| `Runs.RequestStartsTurn` | client/src/components/CollectionPage.jsx:371-379 | an accepted paging request starts a turn from the current page whose target page `page + d` is within `0..floor(n/7)` |
| `Runs.TurnStep` | client/src/components/CollectionPage.jsx:151-191 | one event during a page turn never throws, and either the turn goes on or it lands on the next page with the flag cleared |
| `Runs.TurnMovesPageOnce` | client/src/components/CollectionPage.jsx:165-191 | until the phase returns to WAIT, the page is the start page while the flag is clear and start + `dir` once it is set, and the turn ends on start + `dir` with `rayPage` reset; the selection stays empty and `prev` is kept, whatever events arrive meanwhile |
| `Runs.TurnCompletes` | client/src/components/CollectionPage.jsx:151-191 | from a paging request, four frames whose eased fraction has reached 1 (setup, the new clock's first reading of 0, the page move, the exit) end the turn one page over, with `rayPage` reset; a turn further along needs fewer |
| `Runs.SelectStep` | client/src/components/CollectionPage.jsx:193-294 | one event during a selection animation whose idle descriptor is available never throws, and the animation goes on or ends in WAIT with the pair and the page unchanged |
| `Runs.SelectionKeepsSelection` | client/src/components/CollectionPage.jsx:193-294 | from SETUPSELECT with the idle descriptor available, or from SELECT, no run throws before WAIT, the phase stays SETUPSELECT or SELECT until WAIT, and the selection pair and the page never change, whatever events arrive meanwhile |
| `Runs.SelectionCompletes` | client/src/components/CollectionPage.jsx:193-294 | from SETUPSELECT with its idle descriptor available, three frames whose clock has passed 1.5 s (setup, the new clock's first reading of 0, the exit) return to WAIT with the pair and the page unchanged; SELECT needs fewer |
| `Runs.IdleUnsetReachable` | client/src/components/CollectionPage.jsx:250-252 | a concrete run from the mounted shelf in which the frame callback throws on the null idle descriptor |
| `Runs.StaleIdleReachable` | client/src/components/CollectionPage.jsx:136-143 | a concrete run in which SETUPSELECT finds record 1 outgoing while the idle descriptor still holds record 0 |
| `Viewer.CollectionPage.constructor` | client/src/components/CollectionPage.jsx:318-327 | the mounted shelf's fields are the initial state, which satisfies the invariant |
| `Viewer.CollectionPage.Click` | client/src/components/CollectionPage.jsx:65-73 | the click handler updates the fields as `AfterClick` says, keeps the invariant, and changes nothing outside WAIT |
| `Viewer.CollectionPage.KeyDown` | client/src/components/CollectionPage.jsx:365-369 | the key handler updates the fields as `AfterKey` says, keeps the invariant, and changes nothing outside WAIT |
| `Viewer.CollectionPage.Paging` | client/src/components/CollectionPage.jsx:371-379 | the paging handler updates the fields as `AfterPaging` says, keeps the invariant, changes nothing unless WAIT with nothing selected, and never touches the selection or the page |
| `Viewer.CollectionPage.Frame` | client/src/components/CollectionPage.jsx:129-296 | the frame callback updates the fields as `AfterFrame` says, keeps the invariant, and throws iff SETUPSELECT meets an outgoing record with no idle descriptor |

## Left out

- Geometry is left out: rays, vectors, camera position and look-at, rotation angles, the idle wobble and the shelf pivot's rotation. This is floating-point 3D maths over the `three` library. Only the discrete state that these branches read or write is modelled.
- `smootherstep` and `THREE.Clock` time are foreign calls. The clock's reading and the page turn's eased fraction are inputs of each frame.
- Machine.AfterFrame: a new clock reads 0 on its first frame, but after that the elapsed time and the eased fraction are free inputs. The model does not make them grow over time or tie them to each other, so its liveness lemmas assume frames with suitable readings.
- Numbers are real numbers, not JavaScript doubles. `1 / Math.pow(Math.E, 5)` is written as the shortest decimal that rounds to the double it evaluates to.
- React state updates and effects are treated as taking effect at once. Each `setSelectedVinyl` call re-arms SETUPSELECT immediately. The real component defers the update and the effect to the next render.
- The numeric values of the phase enumeration are not modelled. The source only compares phases for equality, so the six-constructor datatype stands in for them.
- What happens after the frame callback throws is up to the rendering framework and is not modelled. A run simply ends there.
- The click dispatch is not modelled: the ray cast and the delivery of one click to every hit object. A click arrives as a record and a flag saying whether it was the frontmost hit.
- `orbit.current.enabled = false` in SETUPSELECT only concerns camera controls and is left out.
- Rendering is left out: the scene markup, `createMesh`, `Lighting`, `ImportedMesh`, the page label and the detail panel.
- `fetchCollection` and the keydown listener registration are network I/O and browser plumbing. The collection length is fixed when the shelf is built.
- `server/server.js` and `server/routes/collectionRouter.js` are an HTTP proxy over a catalog client library, with no logic of their own. `client/src/App.jsx`, `client/src/components/HomePage.jsx` and `client/vite.config.js` are routing, static markup and build configuration. None of them is part of this model.
