/** The editor's state machine: the current mode, the drawing, the saved
    constellations and the glow replay's handles, with one transition per
    handler of the page.

    The replay is modelled in two parts. `pending` is the frame callback
    queued with `requestAnimationFrame` (it closes over the segment lengths
    and the colour); `frameId` is the variable `animationFrameId`, which is
    what `isAnimationInProgress` looks at. Cancelling drops both. A replay
    that runs to its end queues no further frame, but leaves `frameId`
    holding the handle of the frame that just ran: the page then believes
    an animation is still in progress and ignores clicks on the sky until
    something cancels it. */
module Editor {
  import opened Common
  import opened Colors
  import opened Selection
  import opened Store
  import opened Glow
  import HitTest
  import Text

  datatype Mode = Explore | Create

  /** The glow line in the scene: the drawn parts of the segments, in the
      constellation's colour, at the frame's opacity. */
  datatype GlowLine = GlowLine(pieces: seq<Piece>, color: Rgb, opacity: real)

  /** What the queued frame callback closes over. */
  datatype Session = Session(lengths: seq<real>, color: Rgb)

  datatype Editor = Editor(
    mode: Mode,
    drawing: Drawing,
    store: seq<Constellation>,
    glowLine: Option<GlowLine>,
    startTime: Option<real>,
    frameId: Option<nat>,
    animatingId: Option<string>,
    pending: Option<Session>)

  /** The star catalog as far as replaying needs it: which catalog indices
      have a record, and the distance between the positions of two of them
      on the celestial sphere. */
  datatype Sky = Sky(known: set<int>, separation: (int, int) -> real)

  /** Two different catalog stars are never at the same position. */
  predicate SkyValid(sky: Sky) {
    forall a, b :: a in sky.known && b in sky.known && a != b ==> sky.separation(a, b) > 0.0
  }

  /** A replay can run: there is at least one segment and none is of
      length zero. */
  predicate SessionOk(s: Session) {
    |s.lengths| > 0 && AllPositive(s.lengths)
  }

  /** The replay handles agree: a constellation is animating exactly
      while a frame is queued, a queued frame has its handle recorded, and
      a glow line is only in the scene during a replay. */
  predicate HandlesAgree(e: Editor) {
    && (e.animatingId.Some? <==> e.pending.Some?)
    && (e.pending.Some? ==> e.frameId.Some?)
    && (e.glowLine.Some? ==> e.pending.Some?)
  }

  /** What every reachable state keeps: consistent bookkeeping of the
      drawing, a well-formed store, no selection while exploring, and
      replay handles that agree with each other and with the store. */
  predicate Valid(e: Editor) {
    && Consistent(e.drawing)
    && StoreOk(e.store)
    && (e.mode == Explore ==> e.drawing.stars == [])
    && HandlesAgree(e)
    && (e.pending.Some? ==> SessionOk(e.pending.value))
    && (e.animatingId.Some? ==> HasId(e.store, e.animatingId.value))
  }

  /** The page after loading the saved constellations: exploring, nothing
      drawn, nothing animating. (The initial `switchMode('explore')` finds
      the page already in explore mode and does nothing.) */
  function Initial(store: seq<Constellation>): (e: Editor)
    ensures e.mode == Explore && e.store == store && e.drawing == Blank
    ensures StoreOk(store) ==> Valid(e)
  {
    Editor(Explore, Blank, store, None, None, None, None, None)
  }

  /** `isAnimationInProgress`. */
  predicate IsAnimationInProgress(e: Editor) {
    e.frameId.Some?
  }

  /** The handle stays set although nothing is queued any more. */
  predicate Stuck(e: Editor) {
    e.frameId.Some? && e.pending.None?
  }

  /** Removing the glow line, cancelling the queued frame and clearing
      both handles. */
  function Cancel(e: Editor): (r: Editor)
    ensures !IsAnimationInProgress(r) && r.pending.None? && r.animatingId.None? && r.glowLine.None?
    ensures r.mode == e.mode && r.drawing == e.drawing && r.store == e.store
  {
    e.(glowLine := None, pending := None, frameId := None, animatingId := None)
  }

  /** `switchMode`: nothing happens when the page is already in that mode.
      Otherwise every replay is stopped; entering explore mode also clears
      the drawing, entering create mode keeps it. */
  function SwitchMode(e: Editor, m: Mode): (r: Editor)
    ensures r.mode == m && r.store == e.store
    ensures m == e.mode ==> r == e
    ensures m != e.mode ==> !IsAnimationInProgress(r) && r.pending.None? && r.animatingId.None? && r.glowLine.None?
    ensures m != e.mode && m == Explore ==> r.drawing == Reset(e.drawing)
    ensures m == Create ==> r.drawing == e.drawing
  {
    if e.mode == m then e
    else if m == Explore then Cancel(e.(mode := m, drawing := Reset(e.drawing)))
    else Cancel(e.(mode := m))
  }

  /** The catalog records of a constellation's stars, in order; indices
      without a record are dropped. */
  function Resolve(sky: Sky, indices: seq<int>): (r: seq<int>)
    ensures |r| <= |indices|
    ensures forall i :: 0 <= i < |r| ==> r[i] in sky.known
  {
    if |indices| == 0 then []
    else if indices[0] in sky.known then [indices[0]] + Resolve(sky, indices[1..])
    else Resolve(sky, indices[1..])
  }

  /** Resolving keeps exactly the indices that have a record, and creates
      no duplicates. */
  lemma {:induction false} ResolveIsFilter(sky: Sky, indices: seq<int>)
    ensures forall x :: x in Resolve(sky, indices) <==> x in indices && x in sky.known
    ensures NoDup(indices) ==> NoDup(Resolve(sky, indices))
  {
    if |indices| > 0 {
      var rest := indices[1..];
      ResolveIsFilter(sky, rest);
      assert forall x :: x in indices <==> x == indices[0] || x in rest;
      if indices[0] in sky.known && NoDup(indices) {
        assert indices[0] !in rest;
        var r := Resolve(sky, indices);
        assert r == [indices[0]] + Resolve(sky, rest);
        assert NoDup(rest);
      }
    }
  }

  /** Resolving works index by index, so the indices with a record keep
      their click order. */
  lemma {:induction false} ResolveAppend(sky: Sky, a: seq<int>, b: seq<int>)
    ensures Resolve(sky, a + b) == Resolve(sky, a) + Resolve(sky, b)
  {
    if |a| > 0 {
      assert (a + b)[1..] == a[1..] + b;
      ResolveAppend(sky, a[1..], b);
    } else {
      assert a + b == b;
    }
  }

  /** The lengths of the segments joining consecutive stars: one per pair
      of neighbours, and none of length zero when the stars are distinct
      catalog stars. */
  function Lengths(sky: Sky, stars: seq<int>): (r: seq<real>)
    ensures |r| == if |stars| == 0 then 0 else |stars| - 1
    ensures forall i :: 0 <= i < |r| ==> r[i] == sky.separation(stars[i], stars[i + 1])
    ensures SkyValid(sky) && NoDup(stars) && (forall x :: x in stars ==> x in sky.known) ==>
              AllPositive(r)
  {
    var r := if |stars| < 1 then []
             else seq(|stars| - 1, i requires 0 <= i < |stars| - 1 => sky.separation(stars[i], stars[i + 1]));
    assert SkyValid(sky) && NoDup(stars) && (forall x :: x in stars ==> x in sky.known) ==>
             AllPositive(r) by {
      if SkyValid(sky) && NoDup(stars) && (forall x :: x in stars ==> x in sky.known) {
        forall i | 0 <= i < |r| ensures r[i] > 0.0 {
          assert stars[i] != stars[i + 1];
          assert stars[i] in sky.known && stars[i + 1] in sky.known;
        }
      }
    }
    r
  }

  /** The markers a replay adds: exactly the markers a create-mode drawing
      of these stars in this colour would hold. */
  function MarkersFor(stars: seq<int>, color: Rgb): (ms: seq<Marker>)
    ensures MarkerStars(ms) == stars
    ensures forall m :: m in ms ==> m.color == color
    ensures Mirrored(Drawing(stars, ms, LineThrough(stars), Some(color), "", false))
  {
    seq(|stars|, i requires 0 <= i < |stars| => Marker(stars[i], color))
  }

  /** `displayConstellation(id)` at time `now`, the queued frame getting
      `handle`. A running replay is cancelled first. An unknown id then
      stops there. In explore mode the drawing is cleared. A constellation
      with fewer than two stars on record draws nothing more; otherwise a
      marker in the saved colour is added for each of its stars and a
      replay of its line is queued. */
  function Display(e: Editor, id: string, sky: Sky, now: real, handle: nat): (r: Editor)
    ensures r.mode == e.mode && r.store == e.store
    ensures r.drawing.name == e.drawing.name && (r.drawing.saveEnabled ==> e.drawing.saveEnabled)
    ensures r.drawing.stars == e.drawing.stars || (e.mode == Explore && r.drawing.stars == [])
    ensures HandlesAgree(e) ==> HandlesAgree(r)
  {
    var e1 := if IsAnimationInProgress(e) then Cancel(e) else e;
    match Find(e1.store, id)
    case None => e1
    case Some(c) =>
      var e2 := if e1.mode == Explore then e1.(drawing := Reset(e1.drawing)) else e1;
      if |Resolve(sky, c.starIndices)| < MinStars then e2
      else StartReplay(e2, c, sky, now, handle)
  }

  /** What displaying does: an unknown id leaves nothing running; a known
      constellation with at least two stars on record is replayed, its
      markers added after the drawing (which explore mode clears first);
      otherwise nothing is queued. An unknown id changes nothing but the
      cancelling of a running replay; a known one with too few stars on
      record stops any replay and, in explore mode, clears the drawing. */
  lemma DisplayOutcome(e: Editor, id: string, sky: Sky, now: real, handle: nat)
    requires HandlesAgree(e)
    ensures var r := Display(e, id, sky, now, handle);
            !HasId(e.store, id) ==> r.pending.None? && (IsAnimationInProgress(e) ==> !IsAnimationInProgress(r))
    ensures var r := Display(e, id, sky, now, handle);
            !HasId(e.store, id) ==> r == if IsAnimationInProgress(e) then Cancel(e) else e
    ensures var r := Display(e, id, sky, now, handle);
            Find(e.store, id).Some? && |Resolve(sky, Find(e.store, id).value.starIndices)| < MinStars ==>
              && !IsAnimationInProgress(r) && r.pending.None?
              && r.drawing == if e.mode == Explore then Reset(e.drawing) else e.drawing
    ensures var r := Display(e, id, sky, now, handle);
            r.pending.Some? <==> Find(e.store, id).Some?
                                 && |Resolve(sky, Find(e.store, id).value.starIndices)| >= MinStars
    ensures var r := Display(e, id, sky, now, handle);
            r.pending.Some? ==>
              var c := Find(e.store, id).value;
              var stars := Resolve(sky, c.starIndices);
              && r.animatingId == Some(id) && r.frameId == Some(handle) && r.startTime == Some(now)
              && r.pending == Some(Session(Lengths(sky, stars), ParseStyle(c.color)))
              && r.glowLine.None?
              && r.drawing.stars == (if e.mode == Explore then [] else e.drawing.stars)
              && r.drawing.markers == (if e.mode == Explore then [] else e.drawing.markers)
                                      + MarkersFor(stars, ParseStyle(c.color))
  {
  }

  /** What a replay start needs: a valid state with nothing in progress,
      a stored constellation and at least two of its stars on record. */
  predicate CanStart(e: Editor, c: Constellation, sky: Sky) {
    && Valid(e) && SkyValid(sky) && c in e.store && !IsAnimationInProgress(e)
    && |Resolve(sky, c.starIndices)| >= MinStars
  }

  /** The end of `displayConstellation`: only markers are added to the
      drawing, one per star on record in order, in the saved colour; the
      clock starts, the constellation is the animating one and a replay of
      one segment per pair of neighbours is queued. Started from a valid
      state with nothing in progress, for a stored constellation with two
      stars on record, the result is valid. */
  function StartReplay(e: Editor, c: Constellation, sky: Sky, now: real, handle: nat): (r: Editor)
    ensures r.mode == e.mode && r.store == e.store && r.glowLine == e.glowLine
    ensures r.drawing.(markers := e.drawing.markers) == e.drawing
    ensures |e.drawing.markers| <= |r.drawing.markers| && r.drawing.markers[..|e.drawing.markers|] == e.drawing.markers
    ensures MarkerStars(r.drawing.markers[|e.drawing.markers|..]) == Resolve(sky, c.starIndices)
    ensures forall m :: m in r.drawing.markers[|e.drawing.markers|..] ==> m.color == ParseStyle(c.color)
    ensures r.animatingId == Some(c.id) && IsAnimationInProgress(r) && r.startTime == Some(now)
    ensures r.pending.Some? && r.pending.value.color == ParseStyle(c.color)
    ensures |Resolve(sky, c.starIndices)| > 0 ==> |r.pending.value.lengths| == |Resolve(sky, c.starIndices)| - 1
    ensures CanStart(e, c, sky) ==> Valid(r)
  {
    var stars := Resolve(sky, c.starIndices);
    var color := ParseStyle(c.color);
    var added := MarkersFor(stars, color);
    var r := e.(drawing := e.drawing.(markers := e.drawing.markers + added),
                startTime := Some(now), animatingId := Some(c.id), frameId := Some(handle),
                pending := Some(Session(Lengths(sky, stars), color)));
    assert r.drawing.markers[|e.drawing.markers|..] == added;
    assert CanStart(e, c, sky) ==> Valid(r) by {
      if CanStart(e, c, sky) {
        var k :| 0 <= k < |e.store| && e.store[k] == c;
        assert EntryOk(e.store[k]);
        ResolveIsFilter(sky, c.starIndices);
      }
    }
    r
  }

  /** When the replay's clock starts: `animationStartTime`, unless it is
      unset or zero, in which case the frame's own time. */
  function StartOf(e: Editor, time: real): real {
    if e.startTime.None? || e.startTime.value == 0.0 then time else e.startTime.value
  }

  /** One run of the queued frame callback at `time`, the next frame, if
      one is queued, getting `handle`. The previous glow line is removed
      and the part of the path under the band at this progress is drawn,
      if any. At the end of the replay the line is removed, the animating
      id cleared and, in explore mode, the drawing cleared, and no frame is
      queued; `frameId` keeps the handle of this frame. Before the end the
      next frame is queued. With no frame queued nothing runs. */
  function Frame(e: Editor, time: real, handle: nat): (r: Editor)
    requires e.pending.Some? ==> SessionOk(e.pending.value)
    ensures e.pending.None? ==> r == e
    ensures r.mode == e.mode && r.store == e.store
    ensures r.pending.Some? ==> r.pending == e.pending && r.animatingId == e.animatingId
                                && r.frameId == Some(handle) && r.drawing == e.drawing
    ensures r.pending.None? ==> r.frameId == e.frameId
    ensures e.pending.Some? && r.pending.None? ==> r.animatingId.None? && r.glowLine.None?
  {
    match e.pending
    case None => e
    case Some(s) =>
      var start := StartOf(e, time);
      var p := Progress(time - start);
      var pieces := GlowPieces(s.lengths, p);
      var line := if pieces == [] then None else Some(GlowLine(pieces, s.color, Opacity(p)));
      var e1 := e.(startTime := Some(start), glowLine := line);
      if p >= 1.0 then
        var e2 := e1.(glowLine := None, animatingId := None, pending := None);
        if e2.mode == Explore then e2.(drawing := Reset(e2.drawing)) else e2
      else e1.(frameId := Some(handle))
  }

  /** One frame in terms of the band arithmetic: from the duration on
      the replay ends (the drawing cleared in explore mode); before it the
      next frame is queued and the glow line shows exactly the pieces the
      band covers at this progress, at this progress's opacity. */
  lemma FrameOutcome(e: Editor, time: real, handle: nat)
    requires e.pending.Some? && SessionOk(e.pending.value)
    ensures var r := Frame(e, time, handle);
              var p := Progress(time - StartOf(e, time));
              if p >= 1.0 then
                && r.pending.None? && r.animatingId.None? && r.glowLine.None?
                && r.frameId == e.frameId
                && r.drawing == (if e.mode == Explore then Reset(e.drawing) else e.drawing)
              else
                && r.pending == e.pending && r.animatingId == e.animatingId
                && r.frameId == Some(handle) && r.drawing == e.drawing
                && (r.glowLine.Some? <==> GlowPieces(e.pending.value.lengths, p) != [])
                && (r.glowLine.Some? ==>
                      r.glowLine.value == GlowLine(GlowPieces(e.pending.value.lengths, p),
                                                   e.pending.value.color, Opacity(p)))
  {
  }

  /** The click handler once the target is known (`target` is the star
      within the hit radius, if any; `pick` the colour a new shape would
      get). Nothing happens while an animation is believed to be in
      progress. In create mode a hit toggles the star and a miss does
      nothing; in explore mode every click clears the drawing. */
  function ClickOn(e: Editor, target: Option<int>, pick: Rgb): (r: Editor)
    ensures IsAnimationInProgress(e) ==> r == e
    ensures r.mode == e.mode && r.store == e.store && r.frameId == e.frameId
    ensures r.pending == e.pending && r.animatingId == e.animatingId && r.glowLine == e.glowLine
    ensures !IsAnimationInProgress(e) && e.mode == Create && target.Some? ==>
              r.drawing == Toggle(e.drawing, target.value, pick)
    ensures !IsAnimationInProgress(e) && e.mode == Create && target.None? ==> r == e
    ensures !IsAnimationInProgress(e) && e.mode == Explore ==> r.drawing == Reset(e.drawing)
  {
    if IsAnimationInProgress(e) then e
    else if target.Some? && e.mode == Create then e.(drawing := Toggle(e.drawing, target.value, pick))
    else if e.mode == Explore then e.(drawing := Reset(e.drawing))
    else e
  }

  /** A click on the sky at pixel (`x`, `y`) over the projected stars of
      every layer. While no animation is believed in progress, a click in
      create mode toggles the first nearest star when it lies within the
      hit radius and otherwise does nothing, and a click in explore mode
      clears the drawing. */
  function Click(e: Editor, layers: seq<seq<HitTest.ScreenStar>>, x: real, y: real, pick: Rgb): (r: Editor)
    ensures IsAnimationInProgress(e) ==> r == e
    ensures var pts := HitTest.Flatten(layers);
            !IsAnimationInProgress(e) && e.mode == Create ==>
              forall k: nat :: HitTest.FirstNearest(pts, |pts|, x, y, k) ==>
                r == if HitTest.WithinHitRadius(HitTest.Dist2(pts[k], x, y))
                     then e.(drawing := Toggle(e.drawing, pts[k].star, pick)) else e
    ensures !IsAnimationInProgress(e) && e.mode == Create
            && (forall l, j :: 0 <= l < |layers| && 0 <= j < |layers[l]| ==>
                  !HitTest.WithinHitRadius(HitTest.Dist2(layers[l][j], x, y)))
            ==> r == e
    ensures !IsAnimationInProgress(e) && e.mode == Explore ==> r == e.(drawing := Reset(e.drawing))
  {
    ClickOn(e, HitTest.Pick(layers, x, y), pick)
  }

  /** The context-menu handler: in create mode it clears the drawing; in
      explore mode it also stops every replay. */
  function ContextMenu(e: Editor): (r: Editor)
    ensures r.mode == e.mode && r.store == e.store && r.drawing == Reset(e.drawing)
    ensures e.mode == Explore ==> !IsAnimationInProgress(r) && r.pending.None? && r.animatingId.None? && r.glowLine.None?
    ensures e.mode == Create ==> r.frameId == e.frameId && r.pending == e.pending
                                 && r.animatingId == e.animatingId && r.glowLine == e.glowLine
  {
    if e.mode == Create then e.(drawing := Reset(e.drawing))
    else Cancel(e).(drawing := Reset(e.drawing))
  }

  /** The keydown handler: `r` or `R` in create mode clears the drawing;
      every other key, and every key in explore mode, does nothing. */
  function KeyDown(e: Editor, key: string): (r: Editor)
    ensures r.(drawing := e.drawing) == e
    ensures (key == "r" || key == "R") && e.mode == Create ==>
              r.drawing.stars == [] && r.drawing.markers == [] && r.drawing.color.None?
              && r.drawing.name == e.drawing.name
    ensures !((key == "r" || key == "R") && e.mode == Create) ==> r == e
  {
    if (key == "r" || key == "R") && e.mode == Create then e.(drawing := Reset(e.drawing)) else e
  }

  /** The clear-all button: the drawing is cleared once the user confirms. */
  function ClearAll(e: Editor, confirmed: bool): (r: Editor)
    ensures r.(drawing := e.drawing) == e
    ensures confirmed ==> r.drawing.stars == [] && r.drawing.markers == [] && r.drawing.color.None?
                          && r.drawing.name == e.drawing.name
    ensures !confirmed ==> r == e
  {
    if confirmed then e.(drawing := Reset(e.drawing)) else e
  }

  /** Text entering the name field (the field's `input` listener). */
  function NameInput(e: Editor, text: string): (r: Editor)
    ensures r.drawing.name == text
    ensures r.drawing.saveEnabled <==> |e.drawing.stars| >= MinStars && !Text.AllWhitespace(text)
    ensures r.drawing.(name := e.drawing.name, saveEnabled := e.drawing.saveEnabled) == e.drawing
    ensures r.(drawing := e.drawing) == e
  {
    e.(drawing := TypeName(e.drawing, text))
  }

  /** `deleteConstellation(id)`: the entries with this id leave the store.
      When it is the animating constellation, its replay is stopped and the
      drawing cleared; otherwise nothing else changes. */
  function DeleteCurrent(e: Editor, id: string): (r: Editor)
    ensures r.store == Delete(e.store, id) && !HasId(r.store, id)
    ensures r.mode == e.mode
    ensures e.animatingId == Some(id) ==>
              && !IsAnimationInProgress(r) && r.pending.None? && r.animatingId.None? && r.glowLine.None?
              && r.drawing == Reset(e.drawing)
    ensures e.animatingId != Some(id) ==> r == e.(store := Delete(e.store, id))
  {
    var e1 := e.(store := Delete(e.store, id));
    if e.animatingId == Some(id) then Cancel(e1).(drawing := Reset(e1.drawing)) else e1
  }

  /** `saveCurrentConstellation` with the new entry's id `id`, displayed at
      time `now` with its first frame getting `handle`. A refused save
      changes nothing (the page only alerts). A successful one appends the
      entry, empties the name field, clears the drawing, switches to
      explore mode and displays the new constellation. */
  function SaveCurrent(e: Editor, id: string, sky: Sky, now: real, handle: nat): (r: Editor)
    requires |e.drawing.stars| >= MinStars ==> e.drawing.color.Some?
    ensures r == e || (r.mode == Explore && r.drawing.stars == [] && r.drawing.name == "")
  {
    // the colour is only read when the save succeeds, and then it is set
    var color := if e.drawing.color.Some? then e.drawing.color.value else White;
    match Save(e.store, e.drawing.stars, e.drawing.name, color, id)
    case Err(_) => e
    case Ok(store) =>
      var e1 := e.(store := store, drawing := Reset(e.drawing.(name := "")));
      Display(SwitchMode(e1, Explore), id, sky, now, handle)
  }

  /** The outcome of pressing save: a refusal changes nothing, and a
      success leaves the new entry in the store, an empty name field and
      selection, and explore mode. */
  lemma SaveCurrentOutcome(e: Editor, id: string, sky: Sky, now: real, handle: nat)
    requires |e.drawing.stars| >= MinStars ==> e.drawing.color.Some?
    ensures
      var r := SaveCurrent(e, id, sky, now, handle);
      var color := if e.drawing.color.Some? then e.drawing.color.value else White;
      match Save(e.store, e.drawing.stars, e.drawing.name, color, id)
      case Err(_) => r == e
      case Ok(store) =>
        && r.store == store && r.mode == Explore
        && r.drawing.stars == [] && r.drawing.name == "" && !r.drawing.saveEnabled
  {
    var color := if e.drawing.color.Some? then e.drawing.color.value else White;
    match Save(e.store, e.drawing.stars, e.drawing.name, color, id)
    case Err(_) =>
    case Ok(store) =>
      var e1 := e.(store := store, drawing := Reset(e.drawing.(name := "")));
      var e2 := SwitchMode(e1, Explore);
      assert e2.mode == Explore && e2.store == store && !e2.drawing.saveEnabled;
  }

  /** What the handlers need of a state: a queued replay can run, and a
      selection that can be saved has its colour. Every valid state is
      runnable. */
  predicate Runnable(e: Editor) {
    && (e.pending.Some? ==> SessionOk(e.pending.value))
    && (|e.drawing.stars| >= MinStars ==> e.drawing.color.Some?)
  }

  /** A key typed into the name field, leaving `text` in it. Nothing
      stops the key's `keydown` event from reaching the window's listener,
      which runs first: in create mode an `r` or `R` typed into the name
      clears the drawing before the field's `input` listener sees the new
      text. */
  function NameKey(e: Editor, key: string, text: string): (r: Editor)
    ensures (key == "r" || key == "R") && e.mode == Create ==>
              && r.drawing.stars == [] && r.drawing.markers == [] && r.drawing.color.None?
              && r.drawing.name == text && !r.drawing.saveEnabled
    ensures !((key == "r" || key == "R") && e.mode == Create) ==> r == NameInput(e, text)
  {
    NameInput(KeyDown(e, key), text)
  }

  /** A key typed into the name field as the page evidently means it: the
      key only edits the name, and the selection is kept. */
  function NameKeyIntended(e: Editor, key: string, text: string): (r: Editor)
    ensures r.drawing.stars == e.drawing.stars && r.drawing.markers == e.drawing.markers
    ensures r.drawing.color == e.drawing.color && r.drawing.name == text
    ensures r.drawing.saveEnabled <==> |e.drawing.stars| >= MinStars && !Text.AllWhitespace(text)
    ensures r.(drawing := e.drawing) == e
  {
    NameInput(e, text)
  }

  /** The two agree except on `r` and `R` in create mode, where the page
      as written loses the selection. */
  lemma NameKeyAgreesOutsideReset(e: Editor, key: string, text: string)
    ensures !((key == "r" || key == "R") && e.mode == Create) ==>
              NameKey(e, key, text) == NameKeyIntended(e, key, text)
    ensures (key == "r" || key == "R") && e.mode == Create && e.drawing.stars != [] ==>
              NameKey(e, key, text) != NameKeyIntended(e, key, text)
  {
  }

  /** Typing the name "Orion" into the field with a shape of two or more
      stars selected: the second key, `r`, wipes the shape, and the save
      button stays disabled. */
  lemma TypingOrionWipesShape(e: Editor)
    requires e.mode == Create && |e.drawing.stars| >= MinStars
    ensures var r := NameKey(NameKey(e, "O", "O"), "r", "Or");
            r.drawing.stars == [] && !r.drawing.saveEnabled
  {
    assert "O" != "r" && "O" != "R";
    var e1 := NameKey(e, "O", "O");
    assert e1.mode == Create;
  }

  /** Handled as intended, the same two keys keep the shape and enable
      saving. */
  lemma TypingOrionKeepsShapeIntended(e: Editor)
    requires e.mode == Create && |e.drawing.stars| >= MinStars
    ensures var r := NameKeyIntended(NameKeyIntended(e, "O", "O"), "r", "Or");
            r.drawing.stars == e.drawing.stars && r.drawing.saveEnabled
  {
    assert !Text.AllWhitespace("Or") by {
      assert !Text.IsWhitespace("Or"[0]);
    }
  }

  /** Everything the page reacts to. */
  datatype Event =
    | CanvasClick(layers: seq<seq<HitTest.ScreenStar>>, x: real, y: real, pick: Rgb)
    | CanvasContextMenu
    | Key(key: string)
    | ModeButton(mode: Mode)
    | SaveButton(id: string, now: real, handle: nat)
    | ClearAllButton(confirmed: bool)
    | NameKeyTyped(key: string, text: string)
    | NameTyped(text: string)
    | ListItemClick(id: string, now: real, handle: nat)
    | DeleteButton(id: string, confirmed: bool)
    | AnimationFrame(time: real, handle: nat)

  /** The page's reaction to one event (`Key` is a key pressed outside
      the name field, `NameTyped` text entered without a key, such as a
      paste). A disabled save button fires no click; a deletion needs the
      user's confirmation; a frame runs only when one is queued; clicks on
      the sky are ignored while an animation is believed in progress. Only
      the mode buttons and saving change the mode, and only saving and
      deleting change the store. */
  function Step(e: Editor, ev: Event, sky: Sky): (r: Editor)
    requires Runnable(e)
    ensures ev.SaveButton? && !e.drawing.saveEnabled ==> r == e
    ensures ev.DeleteButton? && !ev.confirmed ==> r == e
    ensures ev.AnimationFrame? && e.pending.None? ==> r == e
    ensures ev.CanvasClick? && IsAnimationInProgress(e) ==> r == e
    ensures r.mode != e.mode ==> ev.ModeButton? || ev.SaveButton?
    ensures r.store != e.store ==> ev.SaveButton? || ev.DeleteButton?
  {
    match ev
    case CanvasClick(layers, x, y, pick) => Click(e, layers, x, y, pick)
    case CanvasContextMenu => ContextMenu(e)
    case Key(key) => KeyDown(e, key)
    case ModeButton(m) => SwitchMode(e, m)
    case SaveButton(id, now, handle) =>
      if e.drawing.saveEnabled then SaveCurrent(e, id, sky, now, handle) else e
    case ClearAllButton(confirmed) => ClearAll(e, confirmed)
    case NameKeyTyped(key, text) => NameKey(e, key, text)
    case NameTyped(text) => NameInput(e, text)
    case ListItemClick(id, now, handle) => Display(e, id, sky, now, handle)
    case DeleteButton(id, confirmed) => if confirmed then DeleteCurrent(e, id) else e
    case AnimationFrame(time, handle) => Frame(e, time, handle)
  }

  lemma SwitchModeKeepsValid(e: Editor, m: Mode)
    requires Valid(e)
    ensures Valid(SwitchMode(e, m))
  {
  }

  lemma ClickKeepsValid(e: Editor, target: Option<int>, pick: Rgb)
    requires Valid(e)
    ensures Valid(ClickOn(e, target, pick))
  {
    if !IsAnimationInProgress(e) && e.mode == Create && target.Some? {
      ToggleKeepsConsistent(e.drawing, target.value, pick);
    }
  }

  lemma SmallHandlersKeepValid(e: Editor, key: string, confirmed: bool, text: string)
    requires Valid(e)
    ensures Valid(ContextMenu(e)) && Valid(KeyDown(e, key))
    ensures Valid(ClearAll(e, confirmed)) && Valid(NameInput(e, text))
  {
  }

  /** Deleting one id keeps every other id that was in the store. */
  lemma DeleteKeepsOtherIds(store: seq<Constellation>, id: string, other: string)
    requires HasId(store, other) && other != id
    ensures HasId(Delete(store, id), other)
  {
    var i :| 0 <= i < |store| && store[i].id == other;
    DeleteIsFilter(store, id);
    var r := Delete(store, id);
    assert store[i] in r;
    var k :| 0 <= k < |r| && r[k] == store[i];
  }

  lemma DeleteKeepsValid(e: Editor, id: string)
    requires Valid(e)
    ensures Valid(DeleteCurrent(e, id))
  {
    DeleteKeepsStoreOk(e.store, id);
    if e.animatingId.Some? && e.animatingId != Some(id) {
      DeleteKeepsOtherIds(e.store, id, e.animatingId.value);
    }
  }

  /** Changing only the drawing keeps a valid state valid when the new
      drawing is consistent and empty while exploring. */
  lemma NewDrawingKeepsValid(e: Editor, d: Drawing)
    requires Valid(e) && Consistent(d) && (e.mode == Explore ==> d.stars == [])
    ensures Valid(e.(drawing := d))
  {
  }

  lemma DisplayKeepsValid(e: Editor, id: string, sky: Sky, now: real, handle: nat)
    requires Valid(e) && SkyValid(sky)
    ensures Valid(Display(e, id, sky, now, handle))
  {
    var e1 := if IsAnimationInProgress(e) then Cancel(e) else e;
    assert Valid(e1);
    match Find(e1.store, id)
    case None =>
    case Some(c) =>
      var e2 := if e1.mode == Explore then e1.(drawing := Reset(e1.drawing)) else e1;
      NewDrawingKeepsValid(e1, e2.drawing);
      if |Resolve(sky, c.starIndices)| >= MinStars {
        assert Valid(StartReplay(e2, c, sky, now, handle));
      }
  }

  lemma FrameKeepsValid(e: Editor, time: real, handle: nat)
    requires Valid(e)
    ensures Valid(Frame(e, time, handle))
  {
  }

  /** After the append: the name field and the drawing cleared and
      explore mode entered, with a store that extends the old one. */
  lemma ClearedAfterSaveValid(e: Editor, store: seq<Constellation>)
    requires Valid(e) && StoreOk(store)
    requires |e.store| <= |store| && store[..|e.store|] == e.store
    ensures Valid(SwitchMode(e.(store := store, drawing := Reset(e.drawing.(name := ""))), Explore))
  {
    var e1 := e.(store := store, drawing := Reset(e.drawing.(name := "")));
    if e1.animatingId.Some? {
      var a := e1.animatingId.value;
      var i :| 0 <= i < |e.store| && e.store[i].id == a;
      assert store[i] == e.store[i];
    }
    assert Valid(e1);
  }

  lemma SaveKeepsValid(e: Editor, id: string, sky: Sky, now: real, handle: nat)
    requires Valid(e) && SkyValid(sky)
    requires |e.drawing.stars| >= MinStars ==> e.drawing.color.Some?
    ensures Valid(SaveCurrent(e, id, sky, now, handle))
  {
    var color := if e.drawing.color.Some? then e.drawing.color.value else White;
    var saved := Save(e.store, e.drawing.stars, e.drawing.name, color, id);
    if saved.Ok? {
      SaveKeepsStoreOk(e.store, e.drawing.stars, e.drawing.name, color, id);
      ClearedAfterSaveValid(e, saved.value);
      var e2 := SwitchMode(e.(store := saved.value, drawing := Reset(e.drawing.(name := ""))), Explore);
      DisplayKeepsValid(e2, id, sky, now, handle);
      assert SaveCurrent(e, id, sky, now, handle) == Display(e2, id, sky, now, handle);
    }
  }

  /** Every event keeps the state valid. */
  lemma StepKeepsValid(e: Editor, ev: Event, sky: Sky)
    requires Valid(e) && SkyValid(sky)
    ensures Valid(Step(e, ev, sky))
  {
    if ev.CanvasClick? || ev.CanvasContextMenu? || ev.Key? || ev.ClearAllButton? || ev.NameKeyTyped? || ev.NameTyped? {
      DrawingEventKeepsValid(e, ev, sky);
    } else {
      StoreEventKeepsValid(e, ev, sky);
    }
  }

  lemma DrawingEventKeepsValid(e: Editor, ev: Event, sky: Sky)
    requires Valid(e)
    requires ev.CanvasClick? || ev.CanvasContextMenu? || ev.Key? || ev.ClearAllButton? || ev.NameKeyTyped? || ev.NameTyped?
    ensures Valid(Step(e, ev, sky))
  {
    match ev
    case CanvasClick(layers, x, y, pick) => ClickKeepsValid(e, HitTest.Pick(layers, x, y), pick);
    case CanvasContextMenu => SmallHandlersKeepValid(e, "", false, "");
    case Key(key) => SmallHandlersKeepValid(e, key, false, "");
    case ClearAllButton(confirmed) => SmallHandlersKeepValid(e, "", confirmed, "");
    case NameKeyTyped(key, text) =>
      SmallHandlersKeepValid(e, key, false, "");
      SmallHandlersKeepValid(KeyDown(e, key), "", false, text);
    case NameTyped(text) => SmallHandlersKeepValid(e, "", false, text);
  }

  lemma StoreEventKeepsValid(e: Editor, ev: Event, sky: Sky)
    requires Valid(e) && SkyValid(sky)
    requires ev.ModeButton? || ev.SaveButton? || ev.ListItemClick? || ev.DeleteButton? || ev.AnimationFrame?
    ensures Valid(Step(e, ev, sky))
  {
    match ev
    case ModeButton(m) => SwitchModeKeepsValid(e, m);
    case SaveButton(id, now, handle) =>
      if e.drawing.saveEnabled {
        SaveKeepsValid(e, id, sky, now, handle);
      }
    case ListItemClick(id, now, handle) => DisplayKeepsValid(e, id, sky, now, handle);
    case DeleteButton(id, confirmed) =>
      if confirmed {
        DeleteKeepsValid(e, id);
      }
    case AnimationFrame(time, handle) => FrameKeepsValid(e, time, handle);
  }

  /** A session of events from a valid state: every state it passes
      through is valid, and so is the last. */
  function Run(e: Editor, events: seq<Event>, sky: Sky): (r: Editor)
    requires Valid(e) && SkyValid(sky)
    ensures Valid(r)
    ensures events == [] ==> r == e
    decreases |events|
  {
    if events == [] then e
    else
      StepKeepsValid(e, events[0], sky);
      Run(Step(e, events[0], sky), events[1..], sky)
  }

  /** The save button is disabled exactly when saving would be refused
      as invalid input, so a click it swallows would have changed
      nothing either. */
  lemma DisabledSaveChangesNothing(e: Editor, id: string, sky: Sky, now: real, handle: nat)
    requires Consistent(e.drawing) && !e.drawing.saveEnabled
    ensures SaveCurrent(e, id, sky, now, handle) == e
  {
    SaveCurrentOutcome(e, id, sky, now, handle);
  }

  /** The replay that runs to its end leaves the page believing that an
      animation is still in progress: `frameId` keeps the handle of the
      frame that just ran although no frame is queued, so the click
      handler ignores every click on the sky. */
  lemma FinishedReplayBlocksClicks(e: Editor, time: real, handle: nat, target: Option<int>, pick: Rgb)
    requires Valid(e) && e.pending.Some?
    requires time - StartOf(e, time) >= Duration
    ensures var r := Frame(e, time, handle);
            && Stuck(r) && IsAnimationInProgress(r) && r.animatingId.None? && r.glowLine.None?
            && ClickOn(r, target, pick) == r
  {
  }

  /** Once stuck, the page stays stuck through clicks, keys, the name
      field, the clear-all button, switching to the mode it is already in,
      a right-click in create mode, and deleting any constellation, the
      one just replayed included (it is no longer the animating one). */
  lemma StuckPersists(e: Editor, target: Option<int>, pick: Rgb, key: string, confirmed: bool,
                      text: string, id: string, time: real, handle: nat)
    requires Stuck(e) && HandlesAgree(e)
    ensures Stuck(ClickOn(e, target, pick)) && Stuck(KeyDown(e, key)) && Stuck(NameInput(e, text))
    ensures Stuck(NameKey(e, key, text))
    ensures Stuck(ClearAll(e, confirmed)) && Stuck(SwitchMode(e, e.mode)) && Stuck(Frame(e, time, handle))
    ensures e.mode == Create ==> Stuck(ContextMenu(e))
    ensures Stuck(DeleteCurrent(e, id))
  {
  }

  /** What does end it: switching to the other mode, a right-click in
      explore mode, or displaying a constellation (which either starts a
      new replay or leaves nothing in progress). */
  lemma StuckReleased(e: Editor, id: string, sky: Sky, now: real, handle: nat)
    requires Stuck(e) && HandlesAgree(e)
    ensures forall m :: m != e.mode ==> !IsAnimationInProgress(SwitchMode(e, m))
    ensures e.mode == Explore ==> !IsAnimationInProgress(ContextMenu(e))
    ensures !Stuck(Display(e, id, sky, now, handle))
  {
    var r := Display(e, id, sky, now, handle);
    DisplayOutcome(e, id, sky, now, handle);
    if r.pending.None? {
      assert !IsAnimationInProgress(r) by {
        if Find(e.store, id).Some? {
          var c := Find(e.store, id).value;
          assert r == (if e.mode == Explore then Cancel(e).(drawing := Reset(e.drawing)) else Cancel(e));
        }
      }
    }
  }

  /** Resolving stars that all have catalog records keeps them all. */
  lemma {:induction false} ResolveAllKnown(sky: Sky, indices: seq<int>)
    requires forall i :: 0 <= i < |indices| ==> indices[i] in sky.known
    ensures Resolve(sky, indices) == indices
  {
    if |indices| > 0 {
      var rest := indices[1..];
      assert indices[0] in sky.known;
      ResolveAllKnown(sky, rest);
      assert indices == [indices[0]] + rest;
    }
  }

  /** An id used by no earlier entry finds the entry appended with it. */
  lemma {:induction false} FindAppended(store: seq<Constellation>, c: Constellation)
    requires !HasId(store, c.id)
    ensures Find(store + [c], c.id) == Some(c)
  {
    if |store| > 0 {
      assert (store + [c])[1..] == store[1..] + [c];
      assert !HasId(store[1..], c.id);
      FindAppended(store[1..], c);
    }
  }

  /** Saving a shape drawn in create mode under a new id ends in explore
      mode replaying the new constellation: its markers, in the colour it
      was drawn in, are all that is drawn, and the replay's first frame is
      queued. */
  lemma SaveThenReplays(e: Editor, id: string, sky: Sky, now: real, handle: nat)
    requires Valid(e) && e.mode == Create && !HasId(e.store, id)
    requires forall i :: 0 <= i < |e.drawing.stars| ==> e.drawing.stars[i] in sky.known
    requires Save(e.store, e.drawing.stars, e.drawing.name, White, id).Ok?
    ensures var r := SaveCurrent(e, id, sky, now, handle);
            && r.mode == Explore && r.drawing.stars == []
            && r.animatingId == Some(id) && r.frameId == Some(handle) && r.pending.Some?
            && r.drawing.markers == MarkersFor(e.drawing.stars, e.drawing.color.value)
  {
    var color := e.drawing.color.value;
    var saved := Save(e.store, e.drawing.stars, e.drawing.name, color, id);
    assert saved.Ok?;
    var store := saved.value;
    var c := store[|e.store|];
    assert store == e.store + [c];
    FindAppended(e.store, c);
    ResolveAllKnown(sky, c.starIndices);
    var e1 := e.(store := store, drawing := Reset(e.drawing.(name := "")));
    var e2 := SwitchMode(e1, Explore);
    assert SaveCurrent(e, id, sky, now, handle) == Display(e2, id, sky, now, handle);
    DisplayOutcome(e2, id, sky, now, handle);
  }

  /** The markers of a displayed constellation do not belong to the
      selection: switching to create mode during the replay keeps them
      while the selection is empty, so markers and selection disagree. */
  lemma DisplayedMarkersOutliveSwitch(e: Editor, id: string, sky: Sky, now: real, handle: nat)
    requires HandlesAgree(e) && e.mode == Explore
    requires Display(e, id, sky, now, handle).pending.Some?
    ensures var r := SwitchMode(Display(e, id, sky, now, handle), Create);
            && r.drawing.stars == [] && |r.drawing.markers| >= MinStars && !Mirrored(r.drawing)
            && !IsAnimationInProgress(r)
  {
    DisplayOutcome(e, id, sky, now, handle);
  }

  /** Deleting twice is deleting once, replay handling included. */
  lemma DeleteCurrentIdempotent(e: Editor, id: string)
    ensures DeleteCurrent(DeleteCurrent(e, id), id) == DeleteCurrent(e, id)
  {
    DeleteIdempotent(e.store, id);
  }
}
