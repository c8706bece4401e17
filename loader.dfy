/**
 * The two-pass loader of world/scripts/loadPlaces.js: the `world` vertex is
 * saved first; pass 1 saves one document per kept row into its collection
 * (a unique index on `geonameId` rejects later duplicates); pass 2 saves one
 * `in` edge per kept row, from the row's document to the parent found by
 * the parent search. Every failure inside a pass is logged and skipped.
 */
module Loader {
  import opened Wrappers
  import opened Text
  import opened Places
  import opened ParentSearch

  /** An `in` edge: from a place to the place that contains it. */
  datatype Edge = Edge(from: VertexRef, to: VertexRef)

  /** The root document, saved once before both passes. */
  const WORLD_VERTEX := Vertex("world", "World", ["World", "world"], Geolocation("0.0", "0.0"), "7500000000")

  /** Where a kept row's document is stored. */
  function RefOf(p: Place): VertexRef
  {
    VertexRef(p.level, p.vertex.geonameId)
  }

  /** `db` with `v` stored in `level` under its `geonameId`. */
  function Insert(db: Db, level: Level, v: Vertex): (r: Db)
    ensures Present(r, VertexRef(level, v.geonameId)) && r[level][v.geonameId] == v
    ensures forall ref :: ref != VertexRef(level, v.geonameId) ==>
      (Present(r, ref) <==> Present(db, ref))
      && (Present(db, ref) ==> r[ref.level][ref.geonameId] == db[ref.level][ref.geonameId])
  {
    db[level := (if level in db then db[level] else map[])[v.geonameId := v]]
  }

  /** Every document is stored under its own `geonameId`. */
  ghost predicate Consistent(db: Db)
  {
    forall l, k :: l in db && k in db[l] ==> db[l][k].geonameId == k
  }

  /** Pass 1 on one line: save the row's document if its key is new. */
  function VertexStep(db: Db, line: string): (r: Db)
    ensures forall ref :: Present(db, ref) ==>
      Present(r, ref) && r[ref.level][ref.geonameId] == db[ref.level][ref.geonameId]
    ensures forall ref :: Present(r, ref) && !Present(db, ref) ==>
      Parse(line).Some? && ref == RefOf(Parse(line).value)
  {
    match Parse(line)
    case None => db
    case Some(p) => if Present(db, RefOf(p)) then db else Insert(db, p.level, p.vertex)
  }

  /** The store after pass 1 over `lines`, in order. */
  function Pass1(db: Db, lines: seq<string>): Db
    decreases |lines|
  {
    if lines == [] then db
    else VertexStep(Pass1(db, lines[..|lines| - 1]), lines[|lines| - 1])
  }

  /**
   * Pass 2 on one line: the edge from the row's document to its parent, if
   * both look-ups succeed in `db`.
   */
  function EdgeFor(db: Db, line: string): (r: Option<Edge>)
    ensures r.Some? ==>
      && Parse(line).Some? && r.value.from == RefOf(Parse(line).value)
      && Present(db, r.value.from) && Present(db, r.value.to)
  {
    match Parse(line)
    case None => None
    case Some(p) =>
      var child := RefOf(p);
      var terms := ParentTerms(p.level, p.fields);
      var to := Search(db, terms.0, terms.1, p.fields[CC2]);
      if Present(db, child) && to.Some? then Some(Edge(child, to.value)) else None
  }

  function EdgeList(e: Option<Edge>): seq<Edge>
  {
    if e.Some? then [e.value] else []
  }

  /** The edges pass 2 over `lines` saves, in order, against the store `db`. */
  function Pass2(db: Db, lines: seq<string>): seq<Edge>
    decreases |lines|
  {
    if lines == [] then []
    else Pass2(db, lines[..|lines| - 1]) + EdgeList(EdgeFor(db, lines[|lines| - 1]))
  }

  /** The lines of all files, file after file (`contents.split("\n")`). */
  function Lines(files: seq<string>): seq<string>
    decreases |files|
  {
    if files == [] then []
    else Lines(files[..|files| - 1]) + Split(files[|files| - 1], '\n')
  }

  /** The world graph's collections and its `in` edge collection. */
  class Graph {
    var vertices: Db
    var edges: seq<Edge>

    ghost predicate Valid()
      reads this
    {
      Consistent(vertices)
    }

    /** The graph as a one-time setup leaves it: seven empty collections, no edges. */
    constructor ()
      ensures Valid()
      ensures vertices == map[World := map[], Countries := map[], Adm1 := map[], Adm2 := map[],
                              Adm3 := map[], Adm4 := map[], Adm5 := map[]]
      ensures edges == []
    {
      vertices := map[World := map[], Countries := map[], Adm1 := map[], Adm2 := map[],
                      Adm3 := map[], Adm4 := map[], Adm5 := map[]];
      edges := [];
    }

    /** `graph[level].save(v)`: fails, changing nothing, when the key is taken. */
    method SaveVertex(level: Level, v: Vertex) returns (saved: bool)
      modifies this
      requires Valid()
      ensures Valid()
      ensures saved == !Present(old(vertices), VertexRef(level, v.geonameId))
      ensures vertices == if saved then Insert(old(vertices), level, v) else old(vertices)
      ensures edges == old(edges)
    {
      saved := !Present(vertices, VertexRef(level, v.geonameId));
      if saved {
        vertices := Insert(vertices, level, v);
      }
    }

    /**
     * `db._collection(level).firstExample({geonameId: key})['_id']`, None
     * where it throws: the document found is one whose `geonameId` is `key`.
     */
    method FindVertex(level: Level, key: string) returns (r: Option<VertexRef>)
      requires Valid()
      ensures r.Some? <==> Present(vertices, VertexRef(level, key))
      ensures r.Some? ==> r.value == VertexRef(level, key) && vertices[level][key].geonameId == key
    {
      if level in vertices && key in vertices[level] {
        r := Some(VertexRef(level, key));
      } else {
        r := None;
      }
    }

    /** `graph.in.save(from, to, {})`: fails, changing nothing, when an end is undefined. */
    method SaveEdge(from: Option<VertexRef>, to: Option<VertexRef>) returns (saved: bool)
      modifies this
      requires Valid()
      ensures Valid()
      ensures saved == (from.Some? && to.Some?)
      ensures edges == if saved then old(edges) + [Edge(from.value, to.value)] else old(edges)
      ensures vertices == old(vertices)
    {
      saved := from.Some? && to.Some?;
      if saved {
        edges := edges + [Edge(from.value, to.value)];
      }
    }

    /** The handler run on each line of a file, in pass 0 (vertices) or 1 (edges). */
    method ProcessPlace(pass: nat, line: string)
      requires pass < 2
      modifies this
      requires Valid()
      ensures Valid()
      ensures pass == 0 ==> vertices == VertexStep(old(vertices), line) && edges == old(edges)
      ensures pass == 1 ==>
        vertices == old(vertices) && edges == old(edges) + EdgeList(EdgeFor(old(vertices), line))
    {
      var fields := Split(line, '\t');
      if |fields| != FIELD_COUNT {
        return;  // malformed row
      }
      var (name, alternateNames) := NormaliseNames(fields[NAME], fields[ALTERNATE_NAMES]);
      var derived := DeriveKey(fields);
      if derived.None? {
        return;  // not a place of interest
      }
      var (collection, geonameId) := derived.value;
      if pass == 0 {
        var vertex := Vertex(geonameId, name, alternateNames,
                             Geolocation(fields[LATITUDE], fields[LONGITUDE]), fields[POPULATION]);
        var _ := SaveVertex(collection, vertex);  // a failure is logged and skipped
      } else {
        var toSearchTerms := ParentTerms(collection, fields);
        var fromVertex := FindVertex(collection, geonameId);
        var toVertex := Search(vertices, toSearchTerms.0, toSearchTerms.1, fields[CC2]);
        var _ := SaveEdge(fromVertex, toVertex);  // a failure is logged and skipped
      }
    }

    /** One file of one pass: every line of `contents`, in order. */
    method ProcessFile(pass: nat, contents: string)
      requires pass < 2
      modifies this
      requires Valid()
      ensures Valid()
      ensures pass == 0 ==>
        vertices == Pass1(old(vertices), Split(contents, '\n')) && edges == old(edges)
      ensures pass == 1 ==>
        vertices == old(vertices) && edges == old(edges) + Pass2(old(vertices), Split(contents, '\n'))
    {
      var places := Split(contents, '\n');
      for j := 0 to |places|
        invariant Valid()
        invariant pass == 0 ==> vertices == Pass1(old(vertices), places[..j]) && edges == old(edges)
        invariant pass == 1 ==>
          vertices == old(vertices) && edges == old(edges) + Pass2(old(vertices), places[..j])
      {
        assert places[..j + 1][..j] == places[..j];
        ProcessPlace(pass, places[j]);
      }
      assert places[..|places|] == places;
    }

    /** One pass (0: vertices, 1: edges) over every file, in order. */
    method ProcessFiles(pass: nat, files: seq<string>)
      requires pass < 2
      modifies this
      requires Valid()
      ensures Valid()
      ensures pass == 0 ==> vertices == Pass1(old(vertices), Lines(files)) && edges == old(edges)
      ensures pass == 1 ==>
        vertices == old(vertices) && edges == old(edges) + Pass2(old(vertices), Lines(files))
    {
      ghost var db, es := vertices, edges;
      assert es + [] == es;
      for i := 0 to |files|
        invariant Valid()
        invariant (vertices, edges) == PassState(pass, db, es, Lines(files[..i]))
      {
        ghost var done, chunk := Lines(files[..i]), Split(files[i], '\n');
        LinesSnoc(files, i);
        PassStateAppend(pass, db, es, done, chunk);
        ProcessFile(pass, files[i]);
      }
      assert files[..|files|] == files;
    }

    /**
     * The whole script: save the `world` vertex (a failure here is not
     * caught and ends the script), then pass 1 and pass 2 over all files.
     */
    method Load(files: seq<string>) returns (ok: bool)
      modifies this
      requires Valid()
      ensures Valid()
      ensures ok == !Present(old(vertices), VertexRef(World, "world"))
      ensures !ok ==> vertices == old(vertices) && edges == old(edges)
      ensures ok ==> vertices == Pass1(Insert(old(vertices), World, WORLD_VERTEX), Lines(files))
      ensures ok ==> edges == old(edges) + Pass2(vertices, Lines(files))
    {
      ok := SaveVertex(World, WORLD_VERTEX);
      if !ok {
        return;
      }
      ghost var start := vertices;
      for pass := 0 to 2
        invariant Valid()
        invariant pass == 0 ==> vertices == start && edges == old(edges)
        invariant pass >= 1 ==> vertices == Pass1(start, Lines(files))
        invariant pass == 1 ==> edges == old(edges)
        invariant pass == 2 ==> edges == old(edges) + Pass2(vertices, Lines(files))
      {
        ProcessFiles(pass, files);
      }
    }
  }

  /** The store and the edges after one pass over `lines`, from `db` and `es`. */
  function PassState(pass: nat, db: Db, es: seq<Edge>, lines: seq<string>): (Db, seq<Edge>)
  {
    if pass == 0 then (Pass1(db, lines), es) else (db, es + Pass2(db, lines))
  }

  lemma PassStateAppend(pass: nat, db: Db, es: seq<Edge>, a: seq<string>, b: seq<string>)
    ensures var mid := PassState(pass, db, es, a);
      PassState(pass, db, es, a + b) == PassState(pass, mid.0, mid.1, b)
  {
    if pass == 0 {
      Pass1Append(db, a, b);
    } else {
      Pass2Append(db, a, b);
      assert es + Pass2(db, a + b) == (es + Pass2(db, a)) + Pass2(db, b);
    }
  }

  lemma {:induction false} LinesSnoc(files: seq<string>, i: nat)
    requires i < |files|
    ensures Lines(files[..i + 1]) == Lines(files[..i]) + Split(files[i], '\n')
  {
    assert files[..i + 1][..i] == files[..i];
  }

  /** Pass 1 over two runs of lines is pass 1 over the first, then over the second. */
  lemma {:induction false} Pass1Append(db: Db, a: seq<string>, b: seq<string>)
    ensures Pass1(db, a + b) == Pass1(Pass1(db, a), b)
    decreases |b|
  {
    if b == [] {
      assert a + b == a;
    } else {
      var n := |b|;
      assert (a + b)[..|a + b| - 1] == a + b[..n - 1];
      assert (a + b)[|a + b| - 1] == b[n - 1];
      Pass1Append(db, a, b[..n - 1]);
    }
  }

  /** Pass 2 over two runs of lines saves the edges of the first, then of the second. */
  lemma {:induction false} Pass2Append(db: Db, a: seq<string>, b: seq<string>)
    ensures Pass2(db, a + b) == Pass2(db, a) + Pass2(db, b)
    decreases |b|
  {
    if b == [] {
      assert a + b == a;
    } else {
      var n := |b|;
      assert (a + b)[..|a + b| - 1] == a + b[..n - 1];
      assert (a + b)[|a + b| - 1] == b[n - 1];
      Pass2Append(db, a, b[..n - 1]);
    }
  }

  /** A row without exactly 19 fields yields neither a document nor an edge. */
  lemma MalformedLineIgnored(db: Db, lines: seq<string>, line: string)
    requires |Split(line, '\t')| != FIELD_COUNT
    ensures Pass1(db, lines + [line]) == Pass1(db, lines)
    ensures Pass2(db, lines + [line]) == Pass2(db, lines)
  {
    assert (lines + [line])[..|lines|] == lines;
  }

  /** A document already stored is never replaced by pass 1. */
  lemma {:induction false} FirstWriteWins(db: Db, lines: seq<string>, ref: VertexRef)
    requires Present(db, ref)
    ensures Present(Pass1(db, lines), ref)
    ensures Pass1(db, lines)[ref.level][ref.geonameId] == db[ref.level][ref.geonameId]
    decreases |lines|
  {
    if lines != [] {
      FirstWriteWins(db, lines[..|lines| - 1], ref);
    }
  }

  /**
   * Every document stored after pass 1 was there before or is the document
   * of some kept row of `lines`.
   */
  lemma {:induction false} Pass1Provenance(db: Db, lines: seq<string>, ref: VertexRef)
    requires Present(Pass1(db, lines), ref)
    ensures Present(db, ref) ||
      exists j ::
        && 0 <= j < |lines|
        && Parse(lines[j]).Some?
        && RefOf(Parse(lines[j]).value) == ref
        && Pass1(db, lines)[ref.level][ref.geonameId] == Parse(lines[j]).value.vertex
    decreases |lines|
  {
    if lines != [] {
      var n := |lines|;
      var before := Pass1(db, lines[..n - 1]);
      var p := Parse(lines[n - 1]);
      if p.Some? && RefOf(p.value) == ref && !Present(before, ref) {
        assert Pass1(db, lines)[ref.level][ref.geonameId] == p.value.vertex;
      } else {
        assert Present(before, ref);
        assert Pass1(db, lines)[ref.level][ref.geonameId] == before[ref.level][ref.geonameId];
        Pass1Provenance(db, lines[..n - 1], ref);
        if !Present(db, ref) {
          var j :| 0 <= j < n - 1 && Parse(lines[..n - 1][j]).Some?
            && RefOf(Parse(lines[..n - 1][j]).value) == ref
            && before[ref.level][ref.geonameId] == Parse(lines[..n - 1][j]).value.vertex;
          assert lines[..n - 1][j] == lines[j];
        }
      }
    }
  }

  /** After pass 1, every kept row of `lines` has a document under its key. */
  lemma {:induction false} Pass1Complete(db: Db, lines: seq<string>, j: nat)
    requires j < |lines| && Parse(lines[j]).Some?
    ensures Present(Pass1(db, lines), RefOf(Parse(lines[j]).value))
  {
    var ref := RefOf(Parse(lines[j]).value);
    var front := lines[..j + 1];
    assert front[..j] == lines[..j] && front[j] == lines[j];
    assert Present(Pass1(db, front), ref);
    assert front + lines[j + 1..] == lines;
    Pass1Append(db, front, lines[j + 1..]);
    FirstWriteWins(Pass1(db, front), lines[j + 1..], ref);
  }

  /**
   * The first kept row with a given key wins: when the key was not stored
   * before and no earlier row has it, its document is the one stored.
   */
  lemma FirstRowWins(db: Db, lines: seq<string>, i: nat)
    requires i < |lines| && Parse(lines[i]).Some?
    requires !Present(db, RefOf(Parse(lines[i]).value))
    requires forall j :: 0 <= j < i && Parse(lines[j]).Some? ==>
      RefOf(Parse(lines[j]).value) != RefOf(Parse(lines[i]).value)
    ensures var p := Parse(lines[i]).value;
      Present(Pass1(db, lines), RefOf(p)) && Pass1(db, lines)[p.level][p.vertex.geonameId] == p.vertex
  {
    var p := Parse(lines[i]).value;
    var ref := RefOf(p);
    var front := lines[..i];
    if Present(Pass1(db, front), ref) {
      Pass1Provenance(db, front, ref);
      assert false;
    }
    var upto := lines[..i + 1];
    assert upto[..i] == front && upto[i] == lines[i];
    assert Present(Pass1(db, upto), ref) && Pass1(db, upto)[p.level][p.vertex.geonameId] == p.vertex;
    assert upto + lines[i + 1..] == lines;
    Pass1Append(db, upto, lines[i + 1..]);
    FirstWriteWins(Pass1(db, upto), lines[i + 1..], ref);
  }

  /** Pass 1 keeps every document under its own `geonameId`. */
  lemma {:induction false} Pass1KeepsConsistent(db: Db, lines: seq<string>)
    requires Consistent(db)
    ensures Consistent(Pass1(db, lines))
    decreases |lines|
  {
    if lines != [] {
      Pass1KeepsConsistent(db, lines[..|lines| - 1]);
    }
  }

  /**
   * Running pass 1 again over the same lines changes nothing: every kept
   * row's key is already taken, so every save is rejected.
   */
  lemma Pass1Idempotent(db: Db, lines: seq<string>)
    ensures Pass1(Pass1(db, lines), lines) == Pass1(db, lines)
  {
    var loaded := Pass1(db, lines);
    forall k | 0 <= k <= |lines| ensures Pass1(loaded, lines[..k]) == loaded {
      Pass1StaysAt(db, lines, k);
    }
    assert lines[..|lines|] == lines;
  }

  lemma {:induction false} Pass1StaysAt(db: Db, lines: seq<string>, k: nat)
    requires k <= |lines|
    ensures Pass1(Pass1(db, lines), lines[..k]) == Pass1(db, lines)
  {
    var loaded := Pass1(db, lines);
    if k > 0 {
      Pass1StaysAt(db, lines, k - 1);
      assert lines[..k][..k - 1] == lines[..k - 1];
      assert lines[..k][k - 1] == lines[k - 1];
      if Parse(lines[k - 1]).Some? {
        Pass1Complete(db, lines, k - 1);
      }
    }
  }

  /**
   * Every edge pass 2 saves joins two stored documents and points to a
   * strictly coarser collection, so following edges always terminates.
   */
  lemma {:induction false} EdgesPointUp(db: Db, lines: seq<string>)
    ensures forall e :: e in Pass2(db, lines) ==>
      Present(db, e.from) && Present(db, e.to) && Rank(e.to.level) < Rank(e.from.level)
    decreases |lines|
  {
    if lines != [] {
      var n := |lines|;
      EdgesPointUp(db, lines[..n - 1]);
      var p := Parse(lines[n - 1]);
      if p.Some? {
        var terms := ParentTerms(p.value.level, p.value.fields);
        SearchFindsNearestAncestor(db, terms.0, terms.1, p.value.fields[CC2]);
      }
    }
  }

  /**
   * Every edge pass 2 saves fits the graph's one edge definition `in`: from
   * `countries` or an `adm` collection, to `world` or `adm1` up to `adm4`.
   */
  lemma EdgesWithinRelation(db: Db, lines: seq<string>)
    ensures forall e :: e in Pass2(db, lines) ==>
      e.from.level in {Countries, Adm1, Adm2, Adm3, Adm4, Adm5}
      && e.to.level in {World, Countries, Adm1, Adm2, Adm3, Adm4}
  {
    EdgesPointUp(db, lines);
  }

  /**
   * After pass 1 over the same lines, the child look-up of pass 2 never
   * fails: a kept row gets an edge exactly when its parent search succeeds,
   * and the edge goes to the document that search returns.
   */
  lemma EdgeAfterPass1(db: Db, lines: seq<string>, j: nat)
    requires j < |lines| && Parse(lines[j]).Some?
    ensures var loaded := Pass1(db, lines);
      var p := Parse(lines[j]).value;
      var terms := ParentTerms(p.level, p.fields);
      EdgeFor(loaded, lines[j]) ==
        match Search(loaded, terms.0, terms.1, p.fields[CC2])
        case Some(to) => Some(Edge(RefOf(p), to))
        case None => None
  {
    Pass1Complete(db, lines, j);
  }
}
