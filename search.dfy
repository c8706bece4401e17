/**
 * The parent look-up of the loader's edge pass, `searchToVertex`
 * (world/scripts/loadPlaces.js): an exact look-up of a key in a collection
 * that, on a miss below country level, retries one collection coarser with
 * the key's last '/'-segment removed.
 */
module ParentSearch {
  import opened Wrappers
  import opened Text
  import opened Places

  /** The documents of each collection, by `geonameId` (a unique index). */
  type Db = map<Level, map<string, Vertex>>

  /** A stored document, named by its collection and `geonameId`. */
  datatype VertexRef = VertexRef(level: Level, geonameId: string)

  /** `firstExample({geonameId: key})` on `level` finds a document. */
  predicate Present(db: Db, r: VertexRef)
  {
    r.level in db && r.geonameId in db[r.level]
  }

  /**
   * The collection retried after a miss: `countries` after `adm1`, `adm(n-1)`
   * after `admn` for n in 2..4; None (the search throws) after any other.
   */
  function Climb(l: Level): (r: Option<Level>)
    ensures r.Some? <==> l in {Adm1, Adm2, Adm3, Adm4}
    ensures r.Some? ==> Rank(r.value) + 1 == Rank(l)
  {
    match l
    case Adm1 => Some(Countries)
    case Adm2 => Some(Adm1)
    case Adm3 => Some(Adm2)
    case Adm4 => Some(Adm3)
    case _ => None
  }

  /**
   * `searchToVertex(collection, geonameId, alternateCountry)`: the document
   * found, or None where the source throws. The branch for a collection
   * named "country" retries with the alternate country code; recursive calls
   * pass no alternate code.
   */
  function Search(db: Db, collection: Level, geonameId: string, alternateCountry: string): (r: Option<VertexRef>)
    ensures r.Some? ==> Present(db, r.value) && Rank(r.value.level) <= Rank(collection)
    decreases Rank(collection), if alternateCountry != "" then 1 else 0
  {
    var here := VertexRef(collection, geonameId);
    if Present(db, here) then Some(here)
    else
      var next :=
        if Name(collection) == "country" && alternateCountry != "" then
          Some(VertexRef(collection, alternateCountry))
        else
          match Climb(collection)
          case Some(parent) => Some(VertexRef(parent, StripLastSegment(geonameId)))
          case None => None;
      if next.None? then None
      else Search(db, next.value.level, next.value.geonameId, "")
  }

  /**
   * One step of the search: an exact match is returned; a miss in `adm1` to
   * `adm4` retries the next coarser collection with the last key segment
   * stripped; a miss anywhere else throws.
   */
  lemma SearchStep(db: Db, collection: Level, geonameId: string, alternateCountry: string)
    ensures var r := Search(db, collection, geonameId, alternateCountry);
      && (Present(db, VertexRef(collection, geonameId)) ==> r == Some(VertexRef(collection, geonameId)))
      && (!Present(db, VertexRef(collection, geonameId)) && Climb(collection).Some? ==>
            r == Search(db, Climb(collection).value, StripLastSegment(geonameId), ""))
      && (!Present(db, VertexRef(collection, geonameId)) && Climb(collection).None? ==> r.None?)
  {
    NoCollectionNamedCountry(collection);
  }

  /** No collection of the graph is named "country". */
  lemma NoCollectionNamedCountry(l: Level)
    ensures Name(l) != "country"
  {
  }

  /** The alternate country code never changes the outcome of a search. */
  lemma {:induction false} AlternateCountryIgnored(db: Db, collection: Level, geonameId: string, alternateCountry: string)
    ensures Search(db, collection, geonameId, alternateCountry) == Search(db, collection, geonameId, "")
  {
    NoCollectionNamedCountry(collection);
  }

  /**
   * The documents a search may try, in order: the requested one, then its
   * ancestors by climbing collections and stripping key segments.
   */
  function Ladder(collection: Level, geonameId: string): (r: seq<VertexRef>)
    ensures |r| >= 1 && r[0] == VertexRef(collection, geonameId)
    decreases Rank(collection)
  {
    [VertexRef(collection, geonameId)] +
      match Climb(collection)
      case Some(parent) => Ladder(parent, StripLastSegment(geonameId))
      case None => []
  }

  /** The first entry of `refs` that is stored, if any. */
  function FirstPresent(db: Db, refs: seq<VertexRef>): (r: Option<VertexRef>)
  {
    if refs == [] then None
    else if Present(db, refs[0]) then Some(refs[0])
    else FirstPresent(db, refs[1..])
  }

  /** FirstPresent finds the earliest stored entry, and fails only when none is stored. */
  lemma {:induction false} FirstPresentIsEarliest(db: Db, refs: seq<VertexRef>)
    ensures FirstPresent(db, refs).None? <==> forall i :: 0 <= i < |refs| ==> !Present(db, refs[i])
    ensures FirstPresent(db, refs).Some? ==>
      exists i ::
        && 0 <= i < |refs|
        && FirstPresent(db, refs) == Some(refs[i])
        && Present(db, refs[i])
        && forall j :: 0 <= j < i ==> !Present(db, refs[j])
  {
    if refs != [] && !Present(db, refs[0]) {
      var tail := refs[1..];
      FirstPresentIsEarliest(db, tail);
      assert forall i :: 0 < i < |refs| ==> refs[i] == tail[i - 1];
      if FirstPresent(db, tail).Some? {
        var i :| 0 <= i < |tail| && FirstPresent(db, tail) == Some(tail[i]) && Present(db, tail[i])
          && forall j :: 0 <= j < i ==> !Present(db, tail[j]);
        assert refs[i + 1] == tail[i];
        assert forall j :: 0 <= j < i + 1 ==> !Present(db, refs[j]) by {
          forall j | 0 <= j < i + 1 ensures !Present(db, refs[j]) {
            if j > 0 {
              assert refs[j] == tail[j - 1];
            }
          }
        }
      }
    } else if refs != [] {
      assert FirstPresent(db, refs) == Some(refs[0]);
    }
  }

  /** A search returns the first stored document on its ladder. */
  lemma {:induction false} SearchFollowsLadder(db: Db, collection: Level, geonameId: string, alternateCountry: string)
    ensures Search(db, collection, geonameId, alternateCountry) == FirstPresent(db, Ladder(collection, geonameId))
    decreases Rank(collection)
  {
    AlternateCountryIgnored(db, collection, geonameId, alternateCountry);
    NoCollectionNamedCountry(collection);
    var lad := Ladder(collection, geonameId);
    if !Present(db, VertexRef(collection, geonameId)) {
      match Climb(collection)
      case Some(parent) =>
        SearchFollowsLadder(db, parent, StripLastSegment(geonameId), "");
        assert lad[1..] == Ladder(parent, StripLastSegment(geonameId));
      case None =>
        assert lad == [VertexRef(collection, geonameId)];
    }
  }

  /**
   * The ladder's shape: each entry is one collection coarser than the one
   * before, its key that key with the last segment stripped (a prefix of
   * it); below `adm4` the ladder has one entry per level down to
   * `countries`, so a search makes at most five look-ups and never reaches
   * `world` unless it starts there.
   */
  lemma LadderShape(collection: Level, geonameId: string)
    ensures var lad := Ladder(collection, geonameId);
      && |lad| == (if Climb(collection).Some? then Rank(collection) else 1)
      && |lad| <= 5
      && (forall i :: 0 < i < |lad| ==>
            Rank(lad[i].level) + 1 == Rank(lad[i - 1].level)
            && lad[i].geonameId == StripLastSegment(lad[i - 1].geonameId)
            && lad[i].geonameId <= lad[i - 1].geonameId)
      && (forall i :: 0 <= i < |lad| ==> lad[i].level != World || collection == World)
  {
    LadderLength(collection, geonameId);
    LadderSteps(collection, geonameId);
    LadderAvoidsWorld(collection, geonameId);
  }

  lemma {:induction false} LadderLength(collection: Level, geonameId: string)
    ensures |Ladder(collection, geonameId)| == (if Climb(collection).Some? then Rank(collection) else 1)
    ensures |Ladder(collection, geonameId)| <= 5
    decreases Rank(collection)
  {
    match Climb(collection)
    case None =>
    case Some(parent) =>
      LadderLength(parent, StripLastSegment(geonameId));
  }

  lemma LadderSteps(collection: Level, geonameId: string)
    ensures var lad := Ladder(collection, geonameId);
      forall i :: 0 < i < |lad| ==>
        Rank(lad[i].level) + 1 == Rank(lad[i - 1].level)
        && lad[i].geonameId == StripLastSegment(lad[i - 1].geonameId)
        && lad[i].geonameId <= lad[i - 1].geonameId
  {
    var lad := Ladder(collection, geonameId);
    forall i | 0 < i < |lad|
      ensures Rank(lad[i].level) + 1 == Rank(lad[i - 1].level)
      ensures lad[i].geonameId == StripLastSegment(lad[i - 1].geonameId)
      ensures lad[i].geonameId <= lad[i - 1].geonameId
    {
      LadderStepAt(collection, geonameId, i);
    }
  }

  lemma {:induction false} LadderStepAt(collection: Level, geonameId: string, i: nat)
    requires 0 < i < |Ladder(collection, geonameId)|
    ensures var lad := Ladder(collection, geonameId);
      && Rank(lad[i].level) + 1 == Rank(lad[i - 1].level)
      && lad[i].geonameId == StripLastSegment(lad[i - 1].geonameId)
      && lad[i].geonameId <= lad[i - 1].geonameId
    decreases i
  {
    var lad := Ladder(collection, geonameId);
    match Climb(collection)
    case Some(parent) =>
      var rest := Ladder(parent, StripLastSegment(geonameId));
      assert lad == [VertexRef(collection, geonameId)] + rest;
      assert lad[i] == rest[i - 1];
      if i > 1 {
        assert lad[i - 1] == rest[i - 2];
        LadderStepAt(parent, StripLastSegment(geonameId), i - 1);
      } else {
        StripIsPrefix(geonameId);
      }
  }

  lemma {:induction false} LadderAvoidsWorld(collection: Level, geonameId: string)
    ensures var lad := Ladder(collection, geonameId);
      forall i :: 0 <= i < |lad| ==> lad[i].level != World || collection == World
    decreases Rank(collection)
  {
    var lad := Ladder(collection, geonameId);
    match Climb(collection)
    case None =>
    case Some(parent) =>
      var rest := Ladder(parent, StripLastSegment(geonameId));
      LadderAvoidsWorld(parent, StripLastSegment(geonameId));
      assert lad == [VertexRef(collection, geonameId)] + rest;
      assert forall i :: 0 < i < |lad| ==> lad[i] == rest[i - 1];
  }

  /**
   * A search succeeds exactly when some entry of the ladder is stored, and
   * then returns the nearest such ancestor: a stored document, never
   * finer than the collection searched.
   */
  lemma SearchFindsNearestAncestor(db: Db, collection: Level, geonameId: string, alternateCountry: string)
    ensures var lad := Ladder(collection, geonameId);
      var r := Search(db, collection, geonameId, alternateCountry);
      && (r.None? <==> forall i :: 0 <= i < |lad| ==> !Present(db, lad[i]))
      && (r.Some? ==>
            && Present(db, r.value)
            && Rank(r.value.level) <= Rank(collection)
            && exists i ::
                 && 0 <= i < |lad|
                 && r.value == lad[i]
                 && forall j :: 0 <= j < i ==> !Present(db, lad[j]))
  {
    var lad := Ladder(collection, geonameId);
    SearchFollowsLadder(db, collection, geonameId, alternateCountry);
    FirstPresentIsEarliest(db, lad);
    var r := Search(db, collection, geonameId, alternateCountry);
    if r.Some? {
      var i :| 0 <= i < |lad| && r == Some(lad[i]) && Present(db, lad[i])
        && forall j :: 0 <= j < i ==> !Present(db, lad[j]);
      LadderRanks(collection, geonameId, i);
    }
  }

  /** Entry i of the ladder lies i levels above the collection searched. */
  lemma {:induction false} LadderRanks(collection: Level, geonameId: string, i: nat)
    requires i < |Ladder(collection, geonameId)|
    ensures Rank(Ladder(collection, geonameId)[i].level) + i == Rank(collection)
  {
    var lad := Ladder(collection, geonameId);
    LadderSteps(collection, geonameId);
    if i > 0 {
      LadderRanks(collection, geonameId, i - 1);
    }
  }
}
