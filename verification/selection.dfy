/** The in-progress shape of create mode: the ordered, duplicate-free list
    of selected stars (`selectedStars`, identified by their catalog
    `originalIndex`), the markers drawn for them (`currentMarkers`), the
    authoring polyline, the lazily chosen shape colour, the name typed so
    far and whether the save button is enabled.

    Star positions and three.js objects are abstracted away: a marker is
    the star it marks and its colour, and the polyline is the sequence of
    stars it passes through, present only while it is in the scene. */
module Selection {
  import opened Common
  import opened Text
  import opened Colors

  /** The fewest stars a shape needs for a line and for saving. */
  const MinStars: nat := 2

  datatype Marker = Marker(star: int, color: Rgb)

  datatype Drawing = Drawing(
    stars: seq<int>,
    markers: seq<Marker>,
    polyline: Option<seq<int>>,
    color: Option<Rgb>,
    name: string,
    saveEnabled: bool)

  /** The drawing before anything is selected or typed. */
  const Blank: Drawing := Drawing([], [], None, None, "", false)

  /** The save button is enabled for at least two stars and a name that is
      not blank. */
  predicate CanSave(stars: seq<int>, name: string)
    ensures CanSave(stars, name) <==> |stars| >= MinStars && !AllWhitespace(name)
  {
    |stars| >= MinStars && Trim(name) != []
  }

  /** The authoring line rebuilt from the selection: it is in the scene
      only for two or more stars. */
  function LineThrough(stars: seq<int>): (r: Option<seq<int>>)
    ensures r.Some? <==> |stars| >= MinStars
    ensures r.Some? ==> r.value == stars
  {
    if |stars| < MinStars then None else Some(stars)
  }

  /** The bookkeeping every create-mode state keeps: no star twice, a
      colour exactly while something is selected, and a polyline and save
      button that agree with the selection and the typed name. */
  predicate Consistent(d: Drawing) {
    && NoDup(d.stars)
    && (d.color.Some? <==> |d.stars| > 0)
    && d.polyline == LineThrough(d.stars)
    && d.saveEnabled == CanSave(d.stars, d.name)
  }

  /** One marker per selected star, in selection order, all in the shape
      colour. */
  predicate Mirrored(d: Drawing) {
    && |d.markers| == |d.stars|
    && forall i :: 0 <= i < |d.markers| ==>
         d.markers[i].star == d.stars[i] && d.color == Some(d.markers[i].color)
  }

  /** `findIndex` for equality: the first position holding `x`, or -1. */
  function IndexOf<T(==)>(s: seq<T>, x: T): (i: int)
    ensures -1 <= i < |s|
    ensures i == -1 <==> x !in s
    ensures 0 <= i ==> s[i] == x && x !in s[..i]
  {
    if |s| == 0 then -1
    else if s[0] == x then 0
    else
      var j := IndexOf(s[1..], x);
      assert 0 <= j ==> s[..j + 1] == [s[0]] + s[1..][..j];
      if j == -1 then -1 else j + 1
  }

  /** `splice(i, 1)`. */
  function RemoveAt<T>(s: seq<T>, i: nat): seq<T>
    requires i < |s|
  {
    s[..i] + s[i + 1..]
  }

  function MarkerStars(ms: seq<Marker>): (r: seq<int>)
    ensures |r| == |ms|
    ensures forall i :: 0 <= i < |ms| ==> r[i] == ms[i].star
  {
    seq(|ms|, i requires 0 <= i < |ms| => ms[i].star)
  }

  /** The selection after a click on `star`: appended when absent, its
      first occurrence spliced out when present. */
  function Flip(s: seq<int>, star: int): seq<int> {
    var i := IndexOf(s, star);
    if i == -1 then s + [star] else RemoveAt(s, i)
  }

  /** The markers after `star` leaves the shape: the first marker for it,
      if any, is removed. */
  function DropMarker(ms: seq<Marker>, star: int): (r: seq<Marker>)
    ensures star !in MarkerStars(ms) ==> r == ms
    ensures star in MarkerStars(ms) ==>
              exists i :: 0 <= i < |ms| && ms[i].star == star && r == RemoveAt(ms, i)
                          && forall k :: 0 <= k < i ==> ms[k].star != star
  {
    var m := IndexOf(MarkerStars(ms), star);
    if m == -1 then ms
    else
      assert forall k :: 0 <= k < m ==> ms[k].star != star by {
        forall k | 0 <= k < m ensures ms[k].star != star {
          assert MarkerStars(ms)[..m][k] == ms[k].star;
        }
      }
      RemoveAt(ms, m)
  }

  /** `resetCurrentDrawing`: markers, selection, polyline and colour are
      all cleared, the typed name stays, and the save button is disabled. */
  function Reset(d: Drawing): (r: Drawing)
    ensures r.stars == [] && r.markers == [] && r.polyline.None? && r.color.None?
    ensures r.name == d.name && !r.saveEnabled
    ensures Consistent(r) && Mirrored(r)
  {
    d.(stars := [], markers := [], polyline := None, color := None,
       saveEnabled := CanSave([], d.name))
  }

  /** Typing into the name field fires `updateSaveButtonState`. */
  function TypeName(d: Drawing, text: string): (r: Drawing)
    ensures r.name == text && r.stars == d.stars && r.markers == d.markers
    ensures r.saveEnabled <==> |d.stars| >= MinStars && !AllWhitespace(text)
    ensures Consistent(d) ==> Consistent(r)
  {
    d.(name := text, saveEnabled := CanSave(d.stars, text))
  }

  /** `toggleStarSelection`: a star not yet selected is appended together
      with a marker in the shape colour (chosen now, as `pick`, if there is
      none); a selected star is removed together with the first marker for
      it, and the colour is dropped when nothing remains selected. The
      polyline and the save button are then refreshed. */
  function Toggle(d: Drawing, star: int, pick: Rgb): (r: Drawing)
    ensures star !in d.stars ==> r.stars == d.stars + [star]
    ensures star !in d.stars ==> r.color.Some? && r.markers == d.markers + [Marker(star, r.color.value)]
    ensures star in d.stars ==> r.stars == RemoveAt(d.stars, IndexOf(d.stars, star))
    ensures star in d.stars ==> r.markers == DropMarker(d.markers, star)
    ensures r.color.Some? <==> |r.stars| > 0
    ensures d.color.Some? && |r.stars| > 0 ==> r.color == d.color
    ensures d.color.None? && |r.stars| > 0 ==> r.color == Some(pick)
    ensures r.polyline.Some? <==> |r.stars| >= MinStars
    ensures r.polyline.Some? ==> r.polyline.value == r.stars
    ensures r.saveEnabled <==> |r.stars| >= MinStars && Trim(r.name) != []
    ensures r.name == d.name
    ensures r.stars == Flip(d.stars, star)
  {
    var color := if d.color.None? then pick else d.color.value;
    var stars := Flip(d.stars, star);
    var d1 :=
      if star !in d.stars then
        d.(stars := stars, markers := d.markers + [Marker(star, color)], color := Some(color))
      else
        d.(stars := stars, markers := DropMarker(d.markers, star),
           color := if |stars| == 0 then None else Some(color));
    d1.(polyline := LineThrough(d1.stars), saveEnabled := CanSave(d1.stars, d1.name))
  }

  /** A click adds the star exactly when it was absent, touches no other
      star and never creates a duplicate. */
  lemma {:induction false} FlipMembership(s: seq<int>, star: int)
    requires NoDup(s)
    ensures NoDup(Flip(s, star))
    ensures star in Flip(s, star) <==> star !in s
    ensures forall x :: x != star ==> (x in Flip(s, star) <==> x in s)
  {
    var r := Flip(s, star);
    if star in s {
      var i := IndexOf(s, star);
      assert r == s[..i] + s[i + 1..];
      forall a, b | 0 <= a < b < |r| ensures r[a] != r[b] {
        var a' := if a < i then a else a + 1;
        var b' := if b < i then b else b + 1;
        assert r[a] == s[a'] && r[b] == s[b'];
      }
      forall x ensures x in r <==> x in s && x != star {
        if x in r {
          var k :| 0 <= k < |r| && r[k] == x;
          var k' := if k < i then k else k + 1;
          assert s[k'] == x && k' != i;
        }
        if x in s && x != star {
          var k :| 0 <= k < |s| && s[k] == x;
          assert k != i;
          if k < i { assert r[k] == x; } else { assert r[k - 1] == x; }
        }
      }
    } else {
      assert r == s + [star];
    }
  }

  /** Toggling keeps all the bookkeeping of a consistent drawing. */
  lemma ToggleKeepsConsistent(d: Drawing, star: int, pick: Rgb)
    requires Consistent(d)
    ensures Consistent(Toggle(d, star, pick))
  {
    FlipMembership(d.stars, star);
  }

  /** Selecting a new star and toggling it again restores the drawing
      exactly, markers, colour, polyline and save button included. */
  lemma ToggleTwiceRestores(d: Drawing, star: int, c1: Rgb, c2: Rgb)
    requires Consistent(d) && Mirrored(d) && star !in d.stars
    ensures Toggle(Toggle(d, star, c1), star, c2) == d
  {
    var d1 := Toggle(d, star, c1);
    var n := |d.stars|;
    assert MarkerStars(d.markers) == d.stars;
    assert MarkerStars(d1.markers) == d.stars + [star];
    AppendedIsLast(d.stars, star);
    assert d1.markers[..n] == d.markers;
    assert DropMarker(d1.markers, star) == d.markers;
    var d2 := Toggle(d1, star, c2);
    assert d2.stars == d.stars && d2.markers == d.markers;
  }

  /** On any consistent drawing, selecting a new star and toggling it
      again restores the selection, the colour, the polyline, the name and
      the save button, whatever markers the drawing holds. */
  lemma ToggleTwiceRestoresSelection(d: Drawing, star: int, c1: Rgb, c2: Rgb)
    requires Consistent(d) && star !in d.stars
    ensures var r := Toggle(Toggle(d, star, c1), star, c2);
            && r.stars == d.stars && r.color == d.color && r.polyline == d.polyline
            && r.name == d.name && r.saveEnabled == d.saveEnabled
  {
    AppendedIsLast(d.stars, star);
  }

  /** Markers a create-mode selection does not own (those of a replay kept
      across the switch to create mode) are removed first: with a replay
      marker for star 5 and nothing selected, selecting star 5 and toggling
      it again removes the replay's marker and keeps the new one. */
  lemma ToggleTwiceDropsForeignMarker(c: Rgb, c1: Rgb, c2: Rgb)
    ensures var d := Drawing([], [Marker(5, c)], None, None, "", false);
            && Consistent(d) && !Mirrored(d)
            && Toggle(Toggle(d, 5, c1), 5, c2).markers == [Marker(5, c1)]
            && Toggle(Toggle(d, 5, c1), 5, c2).stars == []
  {
    var d := Drawing([], [Marker(5, c)], None, None, "", false);
    var d1 := Toggle(d, 5, c1);
    assert d1.markers == [Marker(5, c), Marker(5, c1)];
    assert MarkerStars(d1.markers) == [5, 5];
    assert DropMarker(d1.markers, 5) == [Marker(5, c1)];
  }

  /** A value appended to a sequence not holding it is found last, and
      splicing it out gives the sequence back. */
  lemma AppendedIsLast<T>(s: seq<T>, x: T)
    requires x !in s
    ensures IndexOf(s + [x], x) == |s|
    ensures RemoveAt(s + [x], |s|) == s
  {
    assert (s + [x])[..|s|] == s;
  }

  lemma ToggleKeepsMirrored(d: Drawing, star: int, pick: Rgb)
    requires Mirrored(d) && Consistent(d)
    ensures Mirrored(Toggle(d, star, pick))
  {
    if star in d.stars {
      DropKeepsMirrored(d, star, pick);
    } else {
      AddKeepsMirrored(d, star, pick);
    }
  }

  lemma AddKeepsMirrored(d: Drawing, star: int, pick: Rgb)
    requires Mirrored(d) && Consistent(d) && star !in d.stars
    ensures Mirrored(Toggle(d, star, pick))
  {
    var r := Toggle(d, star, pick);
    forall k | 0 <= k < |r.markers|
      ensures r.markers[k].star == r.stars[k] && r.color == Some(r.markers[k].color)
    {
      if k < |d.markers| {
        assert r.markers[k] == d.markers[k] && r.stars[k] == d.stars[k];
      }
    }
  }

  lemma DropKeepsMirrored(d: Drawing, star: int, pick: Rgb)
    requires Mirrored(d) && Consistent(d) && star in d.stars
    ensures Mirrored(Toggle(d, star, pick))
  {
    var r := Toggle(d, star, pick);
    assert MarkerStars(d.markers) == d.stars;
    var i := IndexOf(d.stars, star);
    assert r.markers == RemoveAt(d.markers, i);
    assert r.stars == RemoveAt(d.stars, i);
    forall k | 0 <= k < |r.markers|
      ensures r.markers[k].star == r.stars[k] && r.color == Some(r.markers[k].color)
    {
      var k' := if k < i then k else k + 1;
      assert r.markers[k] == d.markers[k'] && r.stars[k] == d.stars[k'];
    }
  }

  /** Resetting twice is the same as resetting once. */
  lemma ResetIdempotent(d: Drawing)
    ensures Reset(Reset(d)) == Reset(d)
  {
  }
}
