/** The saved constellations (`savedConstellations`): an ordered list of
    `{id, name, starIndices, color}` records. Every change is written back
    to storage as a whole, so the persisted collection is this list. */
module Store {
  import opened Common
  import opened Text
  import opened Colors
  import Selection

  datatype Constellation = Constellation(
    id: string,
    name: string,
    starIndices: seq<int>,
    color: string)

  /** The two reasons `saveCurrentConstellation` alerts and gives up. */
  datatype SaveError = InvalidInput | DuplicateName

  /** Some saved constellation already has this name, ignoring case. */
  predicate NameTaken(store: seq<Constellation>, name: string) {
    exists i :: 0 <= i < |store| && SameIgnoringCase(store[i].name, name)
  }

  /** What saving guarantees of one entry: two or more distinct stars and
      a trimmed, non-blank name. */
  predicate EntryOk(c: Constellation) {
    && |c.starIndices| >= Selection.MinStars
    && NoDup(c.starIndices)
    && Trimmed(c.name)
  }

  /** No two names agree ignoring case. */
  predicate NamesDistinct(store: seq<Constellation>) {
    forall i, j :: 0 <= i < j < |store| ==> !SameIgnoringCase(store[i].name, store[j].name)
  }

  /** Every entry is well formed and no two names agree ignoring case. */
  predicate StoreOk(store: seq<Constellation>) {
    && (forall i :: 0 <= i < |store| ==> EntryOk(store[i]))
    && NamesDistinct(store)
  }

  predicate HasId(store: seq<Constellation>, id: string) {
    exists i :: 0 <= i < |store| && store[i].id == id
  }

  /** The first entry with this id (`savedConstellations.find`): ids need
      not be unique, and no entry before the one found has the id. */
  function Find(store: seq<Constellation>, id: string): (r: Option<Constellation>)
    ensures r.None? <==> !HasId(store, id)
    ensures r.Some? ==> r.value in store && r.value.id == id
    ensures r.Some? ==> exists i :: 0 <= i < |store| && store[i] == r.value && !HasId(store[..i], id)
  {
    if |store| == 0 then None
    else if store[0].id == id then
      assert store[..0] == [];
      Some(store[0])
    else
      var r := Find(store[1..], id);
      assert r.Some? ==> exists i :: 0 <= i < |store| && store[i] == r.value && !HasId(store[..i], id) by {
        if r.Some? {
          var k :| 0 <= k < |store| - 1 && store[1..][k] == r.value && !HasId(store[1..][..k], id);
          assert store[..k + 1] == [store[0]] + store[1..][..k];
          assert store[k + 1] == r.value;
        }
      }
      assert HasId(store, id) <==> HasId(store[1..], id) by {
        if HasId(store, id) {
          var i :| 0 <= i < |store| && store[i].id == id;
          assert store[1..][i - 1].id == id;
        }
        if HasId(store[1..], id) {
          var i :| 0 <= i < |store| - 1 && store[1..][i].id == id;
          assert store[i + 1].id == id;
        }
      }
      r
  }

  /** `saveCurrentConstellation`'s validation and append: fewer than two
      stars or a blank name is invalid input; a name already used, ignoring
      case, is a duplicate; otherwise exactly one entry is appended, holding
      the trimmed name, the stars in click order and the colour, and the
      earlier entries are untouched. */
  function Save(store: seq<Constellation>, stars: seq<int>, typed: string, color: Rgb, id: string)
    : (r: Result<seq<Constellation>, SaveError>)
    ensures r == Err(InvalidInput) <==> |stars| < Selection.MinStars || AllWhitespace(typed)
    ensures r == Err(DuplicateName) <==>
              |stars| >= Selection.MinStars && !AllWhitespace(typed) && NameTaken(store, Trim(typed))
    ensures r.Ok? ==> |r.value| == |store| + 1 && r.value[..|store|] == store
    ensures r.Ok? ==> r.value[|store|].id == id && r.value[|store|].name == Trim(typed)
    ensures r.Ok? ==> r.value[|store|].starIndices == stars
    ensures r.Ok? ==> ParseStyle(r.value[|store|].color) == color
  {
    var name := Trim(typed);
    if |stars| < Selection.MinStars || name == [] then Err(InvalidInput)
    else if NameTaken(store, name) then Err(DuplicateName)
    else
      ParseToHex(color);
      var r := store + [Constellation(id, name, stars, ToHex(color))];
      assert r[..|store|] == store;
      Ok(r)
  }

  /** `deleteConstellation`'s filter: exactly the entries with this id go,
      and the others stay. */
  function Delete(store: seq<Constellation>, id: string): (r: seq<Constellation>)
    ensures |r| <= |store|
    ensures forall i :: 0 <= i < |r| ==> r[i].id != id
  {
    if |store| == 0 then []
    else (if store[0].id == id then [] else [store[0]]) + Delete(store[1..], id)
  }

  /** Exactly the entries with another id survive a deletion. */
  lemma {:induction false} DeleteIsFilter(store: seq<Constellation>, id: string)
    ensures forall c :: c in Delete(store, id) <==> c in store && c.id != id
  {
    if |store| > 0 {
      DeleteIsFilter(store[1..], id);
      assert forall c :: c in store <==> c == store[0] || c in store[1..];
    }
  }

  /** Deleting works entry by entry, so the survivors keep their order. */
  lemma {:induction false} DeleteAppend(a: seq<Constellation>, b: seq<Constellation>, id: string)
    ensures Delete(a + b, id) == Delete(a, id) + Delete(b, id)
  {
    if |a| > 0 {
      assert (a + b)[1..] == a[1..] + b;
      DeleteAppend(a[1..], b, id);
    } else {
      assert a + b == b;
    }
  }

  /** Nothing to delete leaves the store as it was. */
  lemma {:induction false} DeleteAbsent(store: seq<Constellation>, id: string)
    requires !HasId(store, id)
    ensures Delete(store, id) == store
  {
    if |store| > 0 {
      assert !HasId(store[1..], id);
      DeleteAbsent(store[1..], id);
      assert store == [store[0]] + store[1..];
    }
  }

  /** Deleting the same id twice is the same as deleting it once. */
  lemma DeleteIdempotent(store: seq<Constellation>, id: string)
    ensures Delete(Delete(store, id), id) == Delete(store, id)
  {
    var r := Delete(store, id);
    assert !HasId(r, id);
    DeleteAbsent(r, id);
  }

  /** Deleting a constellation right after saving it under an id no other
      entry uses gives back the store as it was before the save. */
  lemma DeleteUndoesSave(store: seq<Constellation>, stars: seq<int>, typed: string, color: Rgb, id: string)
    requires Save(store, stars, typed, color, id).Ok?
    requires !HasId(store, id)
    ensures Delete(Save(store, stars, typed, color, id).value, id) == store
  {
    var r := Save(store, stars, typed, color, id).value;
    assert r == store + [r[|store|]];
    DeleteAppend(store, [r[|store|]], id);
    DeleteAbsent(store, id);
    assert Delete([r[|store|]], id) == [] by {
      assert [r[|store|]][1..] == [];
    }
  }

  /** A successful save keeps all names distinct ignoring case. */
  lemma SaveKeepsNamesDistinct(store: seq<Constellation>, stars: seq<int>, typed: string, color: Rgb, id: string)
    requires NamesDistinct(store)
    requires Save(store, stars, typed, color, id).Ok?
    ensures NamesDistinct(Save(store, stars, typed, color, id).value)
  {
    var r := Save(store, stars, typed, color, id).value;
    var n := |store|;
    assert !NameTaken(store, Trim(typed));
    forall i, j | 0 <= i < j < |r| ensures !SameIgnoringCase(r[i].name, r[j].name) {
      assert r[i] == store[i];
      if j < n {
        assert r[j] == store[j];
      } else {
        assert !SameIgnoringCase(store[i].name, Trim(typed));
      }
    }
  }

  /** A successful save keeps every entry well formed and all names
      distinct ignoring case, given a duplicate-free selection. */
  lemma SaveKeepsStoreOk(store: seq<Constellation>, stars: seq<int>, typed: string, color: Rgb, id: string)
    requires StoreOk(store) && NoDup(stars)
    requires Save(store, stars, typed, color, id).Ok?
    ensures StoreOk(Save(store, stars, typed, color, id).value)
  {
    SaveKeepsNamesDistinct(store, stars, typed, color, id);
    var r := Save(store, stars, typed, color, id).value;
    var c := r[|store|];
    assert EntryOk(c) by {
      assert c.name == Trim(typed) && c.starIndices == stars;
      assert |stars| >= Selection.MinStars && !AllWhitespace(typed);
    }
    forall i | 0 <= i < |r| ensures EntryOk(r[i]) {
      if i < |store| {
        assert r[i] == store[i];
      }
    }
  }

  /** Deleting keeps all names distinct ignoring case. */
  lemma {:induction false} DeleteKeepsNamesDistinct(store: seq<Constellation>, id: string)
    requires NamesDistinct(store)
    ensures NamesDistinct(Delete(store, id))
  {
    if |store| > 0 {
      var rest := store[1..];
      assert NamesDistinct(rest) by {
        forall i, j | 0 <= i < j < |rest| ensures !SameIgnoringCase(rest[i].name, rest[j].name) {
          assert rest[i] == store[i + 1] && rest[j] == store[j + 1];
        }
      }
      DeleteKeepsNamesDistinct(rest, id);
      DeleteIsFilter(rest, id);
      var d := Delete(rest, id);
      if store[0].id != id {
        forall k | 0 <= k < |d| ensures !SameIgnoringCase(store[0].name, d[k].name) {
          assert d[k] in rest;
          var m :| 0 <= m < |rest| && rest[m] == d[k];
          assert store[m + 1] == d[k];
        }
        PrependKeepsNamesDistinct(store[0], d);
        assert Delete(store, id) == [store[0]] + d;
      } else {
        assert Delete(store, id) == d;
      }
    }
  }

  /** An entry whose name differs from every name of a store with
      distinct names can go in front of it. */
  lemma PrependKeepsNamesDistinct(c: Constellation, store: seq<Constellation>)
    requires NamesDistinct(store)
    requires forall k :: 0 <= k < |store| ==> !SameIgnoringCase(c.name, store[k].name)
    ensures NamesDistinct([c] + store)
  {
    var r := [c] + store;
    forall i, j | 0 <= i < j < |r| ensures !SameIgnoringCase(r[i].name, r[j].name) {
      assert r[j] == store[j - 1];
      if i > 0 {
        assert r[i] == store[i - 1];
      }
    }
  }

  /** Deleting keeps every entry well formed and all names distinct. */
  lemma DeleteKeepsStoreOk(store: seq<Constellation>, id: string)
    requires StoreOk(store)
    ensures StoreOk(Delete(store, id))
  {
    DeleteKeepsNamesDistinct(store, id);
    DeleteIsFilter(store, id);
    var r := Delete(store, id);
    forall i | 0 <= i < |r| ensures EntryOk(r[i]) {
      assert r[i] in store;
    }
  }

  /** Once a name is saved, saving it again in any letter case is refused
      as a duplicate, and nothing is written. */
  lemma SameNameRefused(
    store: seq<Constellation>, stars: seq<int>, typed: string, color: Rgb, id: string,
    stars': seq<int>, typed': string, color': Rgb, id': string)
    requires Save(store, stars, typed, color, id).Ok?
    requires |stars'| >= Selection.MinStars
    requires ToLower(Trim(typed')) == ToLower(Trim(typed))
    ensures Save(Save(store, stars, typed, color, id).value, stars', typed', color', id') == Err(DuplicateName)
  {
    var r := Save(store, stars, typed, color, id).value;
    assert SameIgnoringCase(r[|store|].name, Trim(typed'));
    assert Trim(typed') != [] by {
      assert |ToLower(Trim(typed'))| == |Trim(typed')|;
    }
  }

  lemma OrionTrimmed()
    ensures Trim("Orion") == "Orion" && Trim("orion") == "orion"
  {
    assert Trimmed("Orion") && Trimmed("orion");
    TrimmedIsFixed("Orion");
    TrimmedIsFixed("orion");
  }

  lemma OrionLowered()
    ensures ToLower("Orion") == "orion" && ToLower("orion") == "orion"
  {
    assert ToLower("Orion")[0] == 'o';
    assert forall i :: 1 <= i < 5 ==> !('A' <= "Orion"[i] <= 'Z');
    assert forall i :: 0 <= i < 5 ==> !('A' <= "orion"[i] <= 'Z');
  }

  /** Saving "Orion" and then "orion" is refused as a duplicate name. */
  lemma OrionThenLowerCaseOrion(stars: seq<int>, color: Rgb)
    requires |stars| >= Selection.MinStars
    ensures Save([], stars, "Orion", color, "con_1").Ok?
    ensures Save(Save([], stars, "Orion", color, "con_1").value, stars, "orion", color, "con_2")
            == Err(DuplicateName)
  {
    OrionTrimmed();
    OrionLowered();
    assert !AllWhitespace("Orion") by {
      assert !IsWhitespace("Orion"[0]);
    }
    SameNameRefused([], stars, "Orion", color, "con_1", stars, "orion", color, "con_2");
  }
}
