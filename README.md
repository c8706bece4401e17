# GeoNames world graph: a Dafny model

This project models the parts of the livre-foxx `world` service that turn a
GeoNames dump into a graph of places, and the part that picks a starting place
for a coordinate.

- **Splitter** (world/makeWorldFiles.js). It keeps the dump's lines that have at
  least 19 tab-separated fields and a feature code of interest. Each kept line
  is appended, with a newline, to chunk file `world<dddd>.txt`, one file per
  100000 kept lines.
- **Loader** (world/scripts/loadPlaces.js). It first saves the `world` vertex.
  Pass 1 saves one vertex per kept row into the collection its feature code
  selects (`countries`, `adm1` … `adm5`), under a `geonameId` built from the
  country and admin codes. Pass 2 saves an `in` edge from each such vertex to
  its parent. The parent is found by `searchToVertex`, which retries coarser
  collections with shorter keys. Every failed save or look-up is skipped.
- **Anchor search** (world/index.js). It probes `adm5`, `adm4`, `adm3`, `adm2`,
  `adm1`, over and over, starting at a 20 km radius. Every empty probe doubles
  the radius, which is never reset. The first place found is the anchor.

Modules:

| module | file | contents |
|---|---|---|
| `Wrappers` | wrappers.dfy | `Option` |
| `Text` | text.dfy | JavaScript `split`, `join`, `lastIndexOf`, `substring`, `indexOf`, `slice(-n)` and decimal rendering, over `seq<char>` |
| `Places` | places.dfy | collections (`Level`), documents (`Vertex`), name normalisation, the key switch, the parent search-terms switch, row parsing |
| `ParentSearch` | search.dfy | the store (`Db`: collection → `geonameId` → document) and `searchToVertex` |
| `Loader` | loader.dfy | class `Graph`: the store and the edge list, updated in place by the two passes |
| `Anchor` | anchor.dfy | the probe loop of the `/geo/` route, over an oracle for the geo index |
| `WorldFiles` | worldfiles.dfy | the line filter, chunk numbering and naming, and class `Splitter` |

The database is a value. Each collection is a map from `geonameId` to document;
a unique `geonameId` index makes a save of a taken key fail. The `in` edges are
a sequence, appended in order. Each imperative part is a method proved equal to
a fold over its input:

- `Graph.ProcessFiles` is proved equal to `Pass1` / `Pass2`.
- `Splitter.Run` is proved equal to `Distribute`.
- `FindAnchor` is proved equal to `FirstHit`.

The lemmas state what the source promises about those folds.

The model follows the code as written, including these points where it
departs from what its authors evidently had in mind:

- `searchToVertex` tests for a collection named `'country'`. No collection has
  that name, so the alternate-country branch is dead (`AlternateCountryIgnored`).
  The recursive call also drops the alternate code.
- The radius of the anchor search doubles across collections and sweeps and is
  never reset. The loop has no bound.
- The splitter drops lines with fewer than 19 fields. The loader drops lines
  with any count other than 19.
- The splitter keeps every `TERR` row and every code that starts with `PCL`
  (except `PCLH`). The loader keeps only six `PCL` codes and three
  territories. The splitter's filter is therefore strictly wider.

## Model

| member | source | states |
|---|---|---|
| Text.Split | world/scripts/loadPlaces.js:56 | `split` on one character: never empty, one piece more than there are separators |
| Text.JoinSplit | world/scripts/loadPlaces.js:56 | joining the pieces of a split with the same separator restores the string |
| Text.SplitJoin | world/scripts/loadPlaces.js:56 | splitting a join of separator-free pieces returns exactly those pieces |
| Text.Substring | world/scripts/loadPlaces.js:277 | `substring` clamps its arguments: in range it is the slice between them, with both at or below 0 it is "", and its result is never longer than the string |
| Text.StripLastSegment | world/scripts/loadPlaces.js:277 | no contract of its own; `StripLastSegmentOf`, `StripIsPrefix` and `StripLastSegmentOfJoin` state what it returns |
| Text.LastIndexOf | world/scripts/loadPlaces.js:277 | the result is -1 or a position holding the character, and no later position holds it |
| Text.StripLastSegmentOf | world/scripts/loadPlaces.js:277 | `substring(0, lastIndexOf('/'))` of `a + "/" + b` (b without '/') is `a`; of a string without '/' it is "" |
| Text.StripIsPrefix | world/scripts/loadPlaces.js:277 | stripping the last segment leaves a prefix of the key |
| Text.StripLastSegmentOfJoin | world/scripts/loadPlaces.js:277 | stripping a '/'-joined path drops exactly its last piece |
| Text.IndexOf | world/makeWorldFiles.js:110 | a non-negative result is the first position where `p` occurs; -1 exactly when `p` occurs nowhere; so `indexOf(p) === 0` holds exactly when `p` is a prefix |
| Text.Decimal | world/makeWorldFiles.js:117 | `String(n)` is never empty and ends in the digit of n modulo 10 |
| Text.DecimalIsCanonical | world/makeWorldFiles.js:117 | `String(n)` is the low digits of n of its own length, with no leading zero unless n is 0 |
| Text.LastChars | world/makeWorldFiles.js:118 | `slice(-n)`, n ≥ 1, has n characters, or as many as the string when it is shorter |
| Text.LastCharsIsSuffix | world/makeWorldFiles.js:118 | for n ≥ 1, `slice(-n)` is a suffix of the string: its last n characters, or all of it |
| Text.PaddedSuffixIsLowDigits | world/makeWorldFiles.js:117-118 | the last k characters of k-1 zeros followed by `String(n)` are the k low decimal digits of n |
| Places.AdmLevel | world/scripts/loadPlaces.js:82-107 | collection `admn` lies n + 1 levels below `world` |
| Places.NormaliseNames | world/scripts/loadPlaces.js:60-70 | a non-empty name is kept; an empty one becomes the first alternate; the name is among the alternates; the split list is a prefix of the result, which has at most one more element |
| Places.IsSet | world/scripts/loadPlaces.js:110-124 | no contract of its own; `DeepestSetAdmin` and `AdmdKey` state how the codes it accepts choose the level |
| Places.DeepestSetAdmin | world/scripts/loadPlaces.js:110-127 | the deepest admin code probed (4, 3, 2, 1) that is non-empty and not "0"; every deeper code is unset |
| Places.DeriveKey | world/scripts/loadPlaces.js:81-167 | a row yields a collection exactly for ADM1–ADM5, ADMD, the six PCL codes, and TERR with AS, EH or SJ; never `world` |
| Places.AdmKeys | world/scripts/loadPlaces.js:82-107 | ADMn goes to `admn` keyed by the country code and admin codes 1..n joined by '/'; ADM5 appends the row id |
| Places.AdmdKey | world/scripts/loadPlaces.js:109-131 | ADMD goes one level below the deepest set admin code, keyed by the codes down to it and the row id; with none set, to `adm1` as `cc/id` |
| Places.CountryKeys | world/scripts/loadPlaces.js:134-166 | the PCL codes and TERR in AS, EH, SJ go to `countries` keyed by the bare country code; other TERR rows and PCLH are dropped |
| Places.ParentTerms | world/scripts/loadPlaces.js:195-222 | the parent is looked up one collection coarser; countries under `world`/`world`; otherwise the key is the country code and the admin codes above the place joined by '/' |
| Places.AdminPathJoins | world/scripts/loadPlaces.js:195-222 | the '/'-joined admin paths are the concatenations the switch writes out |
| Places.ParentKeyStripsLastSegment | world/scripts/loadPlaces.js:195-222 | below `countries`, when no code contains '/', the parent key is the place's key with its last segment removed |
| Places.Parse | world/scripts/loadPlaces.js:55-167 | a line is kept exactly when it has 19 fields and the key switch maps it; the document carries the derived key, goes to a collection other than `world`, and its name is among its alternates |
| Places.ParseDocument | world/scripts/loadPlaces.js:169-179 | the document of a kept row has the names `NormaliseNames` gives for fields 1 and 3, the coordinates of fields 4 and 5, and the population of field 14 |
| ParentSearch.Present | world/scripts/loadPlaces.js:264-267 | no contract of its own; `SearchStep` and `SearchFindsNearestAncestor` show that a search returns a document exactly when this look-up succeeds on some collection it tries |
| ParentSearch.Climb | world/scripts/loadPlaces.js:278-296 | a retry exists exactly after `adm1`..`adm4` and goes one collection coarser |
| ParentSearch.Search | world/scripts/loadPlaces.js:263-301 | a document it returns is stored and lies no finer than the collection searched; `SearchStep` and `SearchFindsNearestAncestor` state the rest |
| ParentSearch.SearchStep | world/scripts/loadPlaces.js:263-301 | an exact match is returned; a miss in `adm1`..`adm4` retries the coarser collection with the stripped key; a miss elsewhere throws |
| ParentSearch.NoCollectionNamedCountry | world/scripts/loadPlaces.js:272 | no collection of the graph is named 'country' |
| ParentSearch.AlternateCountryIgnored | world/scripts/loadPlaces.js:272-275 | the alternate country code never changes the outcome of a search |
| ParentSearch.Ladder | world/scripts/loadPlaces.js:276-298 | the first document tried is the requested one |
| ParentSearch.FirstPresentIsEarliest | world/scripts/loadPlaces.js:264-270 | fails exactly when no entry is stored; otherwise returns a stored entry with none stored before it |
| ParentSearch.SearchFollowsLadder | world/scripts/loadPlaces.js:263-301 | a search returns the first stored document on its ladder of ancestors |
| ParentSearch.LadderShape | world/scripts/loadPlaces.js:276-298 | each retry is one collection coarser with the last key segment stripped (a prefix); at most five look-ups; `world` is never reached from below |
| ParentSearch.SearchFindsNearestAncestor | world/scripts/loadPlaces.js:263-301 | a search succeeds exactly when some ancestor on the ladder is stored, and returns the nearest one, never finer than the collection searched |
| ParentSearch.LadderRanks | world/scripts/loadPlaces.js:276-298 | the i-th document tried lies i collections above the one searched |
| Loader.VertexStep | world/scripts/loadPlaces.js:169-188 | a row never replaces a stored document; the only document it can add is the one under its own key |
| Loader.Pass1 | world/scripts/loadPlaces.js:50-58 | no contract of its own; `Pass1Append`, `FirstWriteWins`, `Pass1Provenance`, `Pass1Complete`, `FirstRowWins` and `Pass1Idempotent` state what it stores |
| Loader.EdgeFor | world/scripts/loadPlaces.js:190-248 | an edge starts at the row's own document, and both of its ends are stored |
| Loader.Pass2 | world/scripts/loadPlaces.js:50-58 | no contract of its own; `Pass2Append`, `EdgesPointUp`, `EdgesWithinRelation` and `EdgeAfterPass1` state what it saves |
| Loader.Lines | world/scripts/loadPlaces.js:51-53 | no contract of its own; `Graph.ProcessFiles` is proved to be the pass over these lines |
| Loader.Insert | world/scripts/loadPlaces.js:182 | a save stores the document under its key and changes no other entry |
| Loader.Graph.constructor | world/scripts/setup.js:5-18 | the seven collections exist and are empty; there are no edges |
| Loader.Graph.SaveVertex | world/scripts/loadPlaces.js:181-188 | a save succeeds exactly when the key is free; a failed save changes nothing; every document stays under its own `geonameId` |
| Loader.Graph.FindVertex | world/scripts/loadPlaces.js:224-230 | the look-up succeeds exactly when the key is stored, and the document found has that `geonameId` |
| Loader.Graph.SaveEdge | world/scripts/loadPlaces.js:239-248 | an edge is appended exactly when both ends were found |
| Loader.Graph.ProcessPlace | world/scripts/loadPlaces.js:55-248 | pass 0 is one step of `Pass1`; pass 1 appends the edge `EdgeFor` gives |
| Loader.Graph.ProcessFile | world/scripts/loadPlaces.js:52-55 | one file of a pass is that pass over the file's lines |
| Loader.Graph.ProcessFiles | world/scripts/loadPlaces.js:50-55 | one pass over all files is that pass over all their lines, file after file |
| Loader.Graph.Load | world/scripts/loadPlaces.js:41-53 | if the `world` save fails the script stops with nothing changed; otherwise the store is `world` plus `Pass1`, and the edges are `Pass2` against that store; every document stays under its own `geonameId` |
| Loader.PassStateAppend | world/scripts/loadPlaces.js:50-55 | one pass over two runs of lines is the pass over the first, then over the second |
| Loader.Pass1Append | world/scripts/loadPlaces.js:51-55 | pass 1 over two runs of lines is pass 1 over the first, then over the second |
| Loader.Pass2Append | world/scripts/loadPlaces.js:51-55 | pass 2 over two runs of lines saves the first run's edges, then the second's |
| Loader.MalformedLineIgnored | world/scripts/loadPlaces.js:56-58 | a row without exactly 19 fields yields neither a vertex nor an edge |
| Loader.FirstWriteWins | world/scripts/loadPlaces.js:181-188 | a stored document is never replaced by pass 1 |
| Loader.Pass1Provenance | world/scripts/loadPlaces.js:169-188 | every document after pass 1 was stored before or is the document of some kept row |
| Loader.Pass1Complete | world/scripts/loadPlaces.js:169-188 | after pass 1, every kept row's key is stored |
| Loader.FirstRowWins | world/scripts/loadPlaces.js:181-188 | for a new key, the first kept row with that key supplies the stored document |
| Loader.Pass1KeepsConsistent | world/scripts/loadPlaces.js:170-182 | every document stays stored under its own `geonameId` |
| Loader.Pass1Idempotent | world/scripts/loadPlaces.js:181-188 | re-running pass 1 over the same lines changes nothing |
| Loader.EdgesPointUp | world/scripts/loadPlaces.js:190-248 | every saved edge joins two stored documents and points to a strictly coarser collection |
| Loader.EdgesWithinRelation | world/scripts/setup.js:14-18 | every saved edge fits the `in` edge definition: from `countries`..`adm5`, to `world`..`adm4` |
| Loader.EdgeAfterPass1 | world/scripts/loadPlaces.js:224-248 | after pass 1 the child look-up never fails: a kept row gets an edge exactly when its parent search succeeds, to the document found |
| Anchor.Limit | world/index.js:45 | `limit(n)` returns a prefix of the results, of length at most n |
| Anchor.ProbeLevel | world/index.js:12-18 | no contract of its own; `ProbeSchedule` states which collection each probe queries |
| Anchor.ProbeRadius | world/index.js:39-50 | no contract of its own; `ProbeSchedule` and `RadiusNeverReset` state how the radius grows |
| Anchor.Nearest | world/index.js:45 | no contract of its own; `NearestShape` states what a probe returns |
| Anchor.Hit | world/index.js:46 | no contract of its own; `NearestShape` states when a probe succeeds |
| Anchor.NearestShape | world/index.js:45-46 | a probe returns at most one place, a prefix of the geo query's answer, and succeeds exactly when that answer is non-empty |
| Anchor.FirstHit | world/index.js:43-51 | a probe it returns lies in range and found a place |
| Anchor.FirstHitIsEarliest | world/index.js:43-51 | it fails exactly when every probe in range is empty; otherwise no earlier probe found anything |
| Anchor.FirstHitIsFirstSuccess | world/index.js:43-51 | a successful probe with no success before it is the one returned |
| Anchor.ProbeSchedule | world/index.js:12-18 | probe 5s + i queries the i-th collection of adm5, adm4, adm3, adm2, adm1; each probe doubles the next one's radius |
| Anchor.RadiusNeverReset | world/index.js:39-50 | one sweep multiplies the radius by 32: the radius is not reset between sweeps |
| Anchor.FirstHitStable | world/index.js:43-51 | more sweeps never change an anchor already found |
| Anchor.FindAnchor | world/index.js:39-51 | the loop stops at the first successful probe, whose first result is the anchor, after that many probes and with the radius of that probe; with no success it makes every probe; a hit in adm5 within 20 km takes one probe |
| WorldFiles.Accepted | world/makeWorldFiles.js:100-113 | kept codes are TERR, ADM1–ADM5, ADMD, and any code starting with "PCL" other than PCLH |
| WorldFiles.Keep | world/makeWorldFiles.js:96-113 | no contract of its own; `Accepted`, `Kept` and the kept-then-dropped lemmas state which lines pass |
| WorldFiles.Kept | world/makeWorldFiles.js:96-113 | a line is among the kept lines exactly when it is among the input lines and passes the filter; never more lines than the input |
| WorldFiles.KeptAppend | world/makeWorldFiles.js:96-113 | the filter keeps the input order: the kept lines of `a + b` are those of `a`, then those of `b` |
| WorldFiles.FileNumber | world/makeWorldFiles.js:116 | no contract of its own; `FileNumberRange` and `BlockSnoc` state which lines share a file |
| WorldFiles.FileNumberRange | world/makeWorldFiles.js:116 | kept line number c goes to file number f with f·100000 ≤ c < (f+1)·100000 |
| WorldFiles.ChunkName | world/makeWorldFiles.js:117-118 | no contract of its own; `ChunkNameDigits`, `ChunkNameMod` and `ChunkNameExamples` state the names |
| WorldFiles.Padded | world/makeWorldFiles.js:117-118 | no contract of its own; `ChunkNameDigits` states it is the four low digits |
| WorldFiles.AppendTo | world/makeWorldFiles.js:120 | no contract of its own; `AppendToAppends` states its effect |
| WorldFiles.Contents | world/makeWorldFiles.js:120 | no contract of its own; a missing file reads as empty, which `AppendToAppends` relies on |
| WorldFiles.AppendToAppends | world/makeWorldFiles.js:120 | appending creates the file if needed, adds the text at its end, and leaves every other file unchanged |
| WorldFiles.Step | world/makeWorldFiles.js:96-121 | no contract of its own; `Splitter.OnLine` is proved to be this step, and `StepRoutes` states what it does to each chunk |
| WorldFiles.Distribute | world/makeWorldFiles.js:96-121 | no contract of its own; `Splitter.Run` is proved to be this fold, and `DistributeCounts`, `DistributeRoutes` and `ChunkHoldsBlock` state its result |
| WorldFiles.Splitter.constructor | world/makeWorldFiles.js:88-94 | the counter is zero and the output directory empty |
| WorldFiles.Splitter.OnLine | world/makeWorldFiles.js:96-121 | the handler is one step of `Distribute` |
| WorldFiles.Splitter.Run | world/makeWorldFiles.js:96-121 | the handler over all lines is `Distribute` over them |
| WorldFiles.DistributeCounts | world/makeWorldFiles.js:116 | the counter advances by the number of kept lines |
| WorldFiles.DistributeRoutes | world/makeWorldFiles.js:116-120 | each chunk file gains the kept lines routed to it, in input order, each with a newline; the files are those before plus those written to; every other file is unchanged |
| WorldFiles.StepRoutes | world/makeWorldFiles.js:116-120 | one handler call keeps the routing invariant of DistributeRoutes |
| WorldFiles.RoutedStep | world/makeWorldFiles.js:116-120 | a kept line is appended to chunk n's file exactly when its file number is n modulo 10000 |
| WorldFiles.ChunkHoldsBlock | world/makeWorldFiles.js:116-120 | below a billion kept lines, chunk n holds exactly kept lines n·100000 up to (n+1)·100000, in order |
| WorldFiles.BlockSnoc | world/makeWorldFiles.js:116 | the k-th kept line joins block k div 100000 and no other |
| WorldFiles.ChunkLines | world/makeWorldFiles.js:120 | a chunk file split on "\n" gives back its lines plus one empty line, which the loader drops |
| WorldFiles.TerminatedIsJoin | world/makeWorldFiles.js:120 | newline-terminated lines are the lines joined by "\n" with one final "\n" |
| WorldFiles.LoaderRowsPassFilter | world/makeWorldFiles.js:97-113 | every row the loader keeps passes the splitter's filter |
| WorldFiles.OtherTerritoriesKeptThenDropped | world/makeWorldFiles.js:101 | a TERR row outside AS, EH, SJ is kept by the splitter and dropped by the loader |
| WorldFiles.OtherPclCodesKeptThenDropped | world/makeWorldFiles.js:108-111 | a PCL-prefixed code other than PCLH and the six country codes is kept by the splitter and dropped by the loader |
| WorldFiles.LongRowsKeptThenDropped | world/makeWorldFiles.js:98 | a row with more than 19 fields and an accepted code is kept by the splitter and dropped by the loader |
| WorldFiles.ChunkNameDigits | world/makeWorldFiles.js:117-118 | the chunk name is `world`, the four low digits of the number, `.txt` |
| WorldFiles.ChunkNameInjective | world/makeWorldFiles.js:117-118 | chunks 0 to 9999 have distinct names |
| WorldFiles.NameAffixes | world/makeWorldFiles.js:118 | two names with the same prefix and suffix are equal exactly when their middles are |
| WorldFiles.ChunkNameWraps | world/makeWorldFiles.js:117-118 | chunk n + 10000 has the name of chunk n |
| WorldFiles.ChunkNameMod | world/makeWorldFiles.js:117-118 | two chunk numbers share a name exactly when they agree modulo 10000 |
| WorldFiles.LowDigitsWrapMany | world/makeWorldFiles.js:117-118 | the four low digits of n are those of n modulo 10000 |
| WorldFiles.LowDigitsInjective | world/makeWorldFiles.js:117-118 | numbers below 10^k have distinct k-digit renderings |
| WorldFiles.LowDigitsWrap | world/makeWorldFiles.js:117-118 | adding 10^k leaves the k low digits unchanged |
| WorldFiles.ChunkNameExamples | world/makeWorldFiles.js:117-118 | chunk 0 is `world0000.txt`, chunk 12 is `world0012.txt`, and so is chunk 10012 |

## Left out

- The ArangoDB engine is not modelled. `firstExample`, `save`, the unique
  `geonameId` index and `graph.in.save` are an in-memory map and sequence.
  Neither the fulltext and geo indexes nor the edge-definition check of
  `graph.in.save` is modelled. `EdgesWithinRelation` shows the saved edges
  always satisfy that check.
- The geo query `within(lat, lon, radius)` is a function parameter of
  `FindAnchor`. The parsing of `lat` and `lon` (`parseFloat`) and their joi
  range validation are left out.
- The `Traverser` ancestry walk that follows the anchor (world/index.js:20-28,
  60-63) is left out. Its order and output come from a library outside this
  model.
- Anchor.FindAnchor: the source loops for ever when every probe is empty. The
  model stops after `sweeps` passes over the five collections; the
  `FirstHitStable` lemma shows that more sweeps never change a result.
- Anchor.ProbeRadius: the radius is an unbounded integer. The source's
  floating-point radius becomes `Infinity` after about a thousand doublings;
  that is not modelled.
- `parseFloat` of the coordinates and `parseInt` of the population
  (world/scripts/loadPlaces.js:174-178) are not modelled. The document keeps
  the fields' text.
- `parseInt(lineCounter / LINES_PER_FILE)` is modelled as integer division. It
  agrees with the source for counters below 2^53.
- File-system and logging work is not modelled: reading and listing files, log
  appends, `console` output, clearing and creating the output directory, and
  the stream and `readline` plumbing. The files the loader reads are a
  sequence of strings. The output directory is a map from name to contents.
- The `world` document saved first also differs in shape from every other
  document: its coordinates are the numbers 0.0 under `location` and its
  population is a number (world/scripts/loadPlaces.js:41-47). `WORLD_VERTEX`
  uses the `geolocation` record and text fields of the other documents, since
  nothing in the model reads them.
- Loader.Graph.Load: a database failure other than a duplicate key is not
  modelled (for example, an unavailable store).
- The exceptions of the source are `None` results. The error messages are not
  modelled.
- world/scripts/setup.js is not modelled. It is used only for the seven empty
  collections of `Graph`'s constructor and the `in` relation of
  `EdgesWithinRelation`.
- No per-level radius reset and no maximum radius are modelled, because the
  code has neither.
