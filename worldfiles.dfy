/**
 * The splitter of world/makeWorldFiles.js: each line of the GeoNames dump
 * with at least 19 tab-separated fields and a feature code of interest is
 * appended, with a newline, to chunk file `world<dddd>.txt`, where `dddd`
 * are the low four digits of the kept line's index divided by 100000.
 *
 * The output directory is a map from file name to contents; creating,
 * clearing and reading files, and the line reader, are not modelled.
 */
module WorldFiles {
  import opened Text
  import opened Places

  /** Kept lines per chunk file. */
  const LINES_PER_FILE: nat := 100000

  /**
   * The feature codes the splitter keeps: TERR, ADM1 to ADM5, ADMD, and any
   * code that starts with "PCL" except PCLH.
   */
  function Accepted(code: string): (r: bool)
    ensures r <==>
      code in {"TERR", "ADM1", "ADM2", "ADM3", "ADM4", "ADM5", "ADMD"}
      || (code != "PCLH" && "PCL" <= code)
  {
    code == "TERR" || code == "ADM1" || code == "ADM2" || code == "ADM3"
    || code == "ADM4" || code == "ADM5" || code == "ADMD"
    || (code != "PCLH" && IndexOf(code, "PCL") == 0)
  }

  /** The splitter keeps `line`: at least 19 fields and an accepted feature code. */
  predicate Keep(line: string)
  {
    var fields := Split(line, '\t');
    |fields| >= FIELD_COUNT && Accepted(fields[FEATURE_CODE])
  }

  /** `parseInt(counter / LINES_PER_FILE)`: the chunk a kept line goes to. */
  function FileNumber(counter: nat): nat
  {
    counter / LINES_PER_FILE
  }

  /** Kept line number `counter` goes to the file whose 100000 lines span it. */
  lemma FileNumberRange(counter: nat)
    ensures var f := FileNumber(counter);
      f * LINES_PER_FILE <= counter < (f + 1) * LINES_PER_FILE
  {
  }

  /** `'world' + ('000' + n).slice(-4) + '.txt'`. */
  function ChunkName(n: nat): string
  {
    "world" + Padded(n) + ".txt"
  }

  /** `('000' + n).slice(-4)`. */
  function Padded(n: nat): string
  {
    LastChars("000" + Decimal(n), 4)
  }

  /** `fs.appendFileSync(name, text)`: creates the file when it is missing. */
  function AppendTo(files: map<string, string>, name: string, text: string): map<string, string>
  {
    files[name := Contents(files, name) + text]
  }

  /**
   * Appending adds `text` to the end of `name`, creating it if needed, and
   * leaves every other file as it was.
   */
  lemma AppendToAppends(files: map<string, string>, name: string, text: string)
    ensures var after := AppendTo(files, name, text);
      && after.Keys == files.Keys + {name}
      && Contents(after, name) == Contents(files, name) + text
      && forall other :: other != name ==> Contents(after, other) == Contents(files, other)
  {
  }

  /** The contents of `name`, empty when there is no such file. */
  function Contents(files: map<string, string>, name: string): string
  {
    if name in files then files[name] else ""
  }

  /** The `'line'` handler on one line, as a function of the counter and the files. */
  function Step(counter: nat, files: map<string, string>, line: string): (nat, map<string, string>)
  {
    if Keep(line) then (counter + 1, AppendTo(files, ChunkName(FileNumber(counter)), line + "\n"))
    else (counter, files)
  }

  /** The counter and the files after the handler has run on every line, in order. */
  function Distribute(counter: nat, files: map<string, string>, lines: seq<string>): (nat, map<string, string>)
    decreases |lines|
  {
    if lines == [] then (counter, files)
    else
      var before := Distribute(counter, files, lines[..|lines| - 1]);
      Step(before.0, before.1, lines[|lines| - 1])
  }

  /** The kept lines, in input order. */
  function Kept(lines: seq<string>): (r: seq<string>)
    ensures |r| <= |lines|
    ensures forall x :: x in r <==> x in lines && Keep(x)
    decreases |lines|
  {
    if lines == [] then []
    else
      var init := lines[..|lines| - 1];
      assert lines == init + [lines[|lines| - 1]];
      Kept(init) + (if Keep(lines[|lines| - 1]) then [lines[|lines| - 1]] else [])
  }

  /**
   * Filtering keeps the input order: the kept lines of `a + b` are those of
   * `a` followed by those of `b`.
   */
  lemma {:induction false} KeptAppend(a: seq<string>, b: seq<string>)
    ensures Kept(a + b) == Kept(a) + Kept(b)
    decreases |b|
  {
    if b == [] {
      assert a + b == a;
    } else {
      var init := b[..|b| - 1];
      assert (a + b)[..|a + b| - 1] == a + init;
      KeptAppend(a, init);
    }
  }

  /** Each of `ks` followed by a newline, concatenated. */
  function Terminated(ks: seq<string>): string
    decreases |ks|
  {
    if ks == [] then "" else Terminated(ks[..|ks| - 1]) + ks[|ks| - 1] + "\n"
  }

  /** The number of distinct chunk names: four digits. */
  const NAME_CYCLE: nat := 10000

  /**
   * What the kept lines `ks`, numbered from `start`, append to the file of
   * chunk n (n < 10000): those whose file number is n modulo 10000, each
   * with its newline.
   */
  function Routed(ks: seq<string>, start: nat, n: nat): string
    decreases |ks|
  {
    if ks == [] then ""
    else
      var i := |ks| - 1;
      Routed(ks[..i], start, n) + (if FileNumber(start + i) % NAME_CYCLE == n then ks[i] + "\n" else "")
  }

  /** The names of the files the kept lines `ks`, numbered from `start`, are appended to. */
  function Touched(ks: seq<string>, start: nat): set<string>
    decreases |ks|
  {
    if ks == [] then {}
    else
      var i := |ks| - 1;
      Touched(ks[..i], start) + {ChunkName(FileNumber(start + i))}
  }

  /** The state of the splitter: the kept-line counter and the output directory. */
  class Splitter {
    var lineCounter: nat
    var files: map<string, string>

    /** No line seen, an empty output directory. */
    constructor ()
      ensures lineCounter == 0 && files == map[]
    {
      lineCounter := 0;
      files := map[];
    }

    /** The `'line'` handler. */
    method OnLine(line: string)
      modifies this
      ensures (lineCounter, files) == Step(old(lineCounter), old(files), line)
    {
      var fields := Split(line, '\t');
      if |fields| < FIELD_COUNT {
        return;  // malformed line or end of file
      }
      if !Accepted(fields[FEATURE_CODE]) {
        return;
      }
      var fileNumber := FileNumber(lineCounter);
      lineCounter := lineCounter + 1;
      var fileName := "000" + Decimal(fileNumber);
      fileName := "world" + LastChars(fileName, 4) + ".txt";
      files := AppendTo(files, fileName, line + "\n");
    }

    /** The handler run on every line of the input, in order. */
    method Run(lines: seq<string>)
      modifies this
      ensures (lineCounter, files) == Distribute(old(lineCounter), old(files), lines)
    {
      ghost var counter0, files0 := lineCounter, files;
      for i := 0 to |lines|
        invariant (lineCounter, files) == Distribute(counter0, files0, lines[..i])
      {
        assert lines[..i + 1][..i] == lines[..i];
        OnLine(lines[i]);
      }
      assert lines[..|lines|] == lines;
    }
  }

  /** The counter advances by one per kept line. */
  lemma {:induction false} DistributeCounts(counter: nat, files: map<string, string>, lines: seq<string>)
    ensures Distribute(counter, files, lines).0 == counter + |Kept(lines)|
    decreases |lines|
  {
    if lines != [] {
      DistributeCounts(counter, files, lines[..|lines| - 1]);
    }
  }

  /**
   * After the splitter has run over `lines`, chunk file n holds what it held
   * before followed by the kept lines routed to it, in input order; the
   * files are those there before and those some kept line went to; every
   * other file is unchanged.
   */
  lemma {:induction false} DistributeRoutes(counter: nat, files: map<string, string>, lines: seq<string>)
    ensures var after := Distribute(counter, files, lines).1;
      && after.Keys == files.Keys + Touched(Kept(lines), counter)
      && (forall name :: name !in Touched(Kept(lines), counter) ==> Contents(after, name) == Contents(files, name))
      && (forall n :: 0 <= n < NAME_CYCLE ==>
            Contents(after, ChunkName(n)) == Contents(files, ChunkName(n)) + Routed(Kept(lines), counter, n))
    decreases |lines|
  {
    if lines != [] {
      var n := |lines|;
      var init, line := lines[..n - 1], lines[n - 1];
      DistributeRoutes(counter, files, init);
      DistributeCounts(counter, files, init);
      var before := Distribute(counter, files, init);
      StepRoutes(counter, files, before.0, before.1, Kept(init), line);
    }
  }

  /** One handler call keeps the routing invariant of DistributeRoutes. */
  lemma StepRoutes(counter: nat, files: map<string, string>, c: nat, fs: map<string, string>,
                   ks: seq<string>, line: string)
    requires c == counter + |ks|
    requires fs.Keys == files.Keys + Touched(ks, counter)
    requires forall name :: name !in Touched(ks, counter) ==> Contents(fs, name) == Contents(files, name)
    requires forall n :: 0 <= n < NAME_CYCLE ==>
      Contents(fs, ChunkName(n)) == Contents(files, ChunkName(n)) + Routed(ks, counter, n)
    ensures var after := Step(c, fs, line).1;
      var ks' := ks + (if Keep(line) then [line] else []);
      && after.Keys == files.Keys + Touched(ks', counter)
      && (forall name :: name !in Touched(ks', counter) ==> Contents(after, name) == Contents(files, name))
      && (forall n :: 0 <= n < NAME_CYCLE ==>
            Contents(after, ChunkName(n)) == Contents(files, ChunkName(n)) + Routed(ks', counter, n))
  {
    if Keep(line) {
      var f := FileNumber(c);
      var name0 := ChunkName(f);
      var extra := line + "\n";
      var after := Step(c, fs, line).1;
      var ks' := ks + [line];
      assert after == fs[name0 := Contents(fs, name0) + extra];
      assert ks'[..|ks|] == ks;
      assert Touched(ks', counter) == Touched(ks, counter) + {name0};
      assert after.Keys == files.Keys + Touched(ks', counter);
      assert forall name :: name !in Touched(ks', counter) ==> Contents(after, name) == Contents(files, name) by {
        forall name | name !in Touched(ks', counter)
          ensures Contents(after, name) == Contents(files, name)
        {
          assert name != name0;
        }
      }
      forall n | 0 <= n < NAME_CYCLE
        ensures Contents(after, ChunkName(n)) == Contents(files, ChunkName(n)) + Routed(ks', counter, n)
      {
        RoutedStep(files, fs, name0, extra, f, ks, line, counter, n);
      }
    } else {
      assert ks + [] == ks;
    }
  }

  lemma RoutedStep(files: map<string, string>, fs: map<string, string>, name0: string, extra: string,
                   f: nat, ks: seq<string>, line: string, counter: nat, n: nat)
    requires n < NAME_CYCLE && name0 == ChunkName(f) && extra == line + "\n"
    requires f == FileNumber(counter + |ks|)
    requires Contents(fs, ChunkName(n)) == Contents(files, ChunkName(n)) + Routed(ks, counter, n)
    ensures Contents(fs[name0 := Contents(fs, name0) + extra], ChunkName(n)) ==
      Contents(files, ChunkName(n)) + Routed(ks + [line], counter, n)
  {
    ChunkNameMod(f, n);
    assert (ks + [line])[..|ks|] == ks;
    if f % NAME_CYCLE == n {
      assert Routed(ks + [line], counter, n) == Routed(ks, counter, n) + extra;
    } else {
      assert Routed(ks + [line], counter, n) == Routed(ks, counter, n) + "";
    }
  }

  /** Two file numbers share a chunk name exactly when they agree modulo 10000. */
  lemma ChunkNameMod(a: nat, n: nat)
    requires n < NAME_CYCLE
    ensures ChunkName(a) == ChunkName(n) <==> a % NAME_CYCLE == n
  {
    ChunkNameDigits(a);
    ChunkNameDigits(n);
    assert Pow10(4) == NAME_CYCLE;
    LowDigitsWrapMany(a);
    LowDigitsInjective(a % NAME_CYCLE, n, 4);
    NameAffixes(LowDigits(a, 4), LowDigits(n, 4));
  }

  /** The four low digits of n are those of n modulo 10000. */
  lemma {:induction false} LowDigitsWrapMany(n: nat)
    ensures LowDigits(n, 4) == LowDigits(n % NAME_CYCLE, 4)
    decreases n
  {
    if n >= NAME_CYCLE {
      var m := n - NAME_CYCLE;
      assert LowDigits(m, 4) == LowDigits(m % NAME_CYCLE, 4) by {
        LowDigitsWrapMany(m);
      }
      assert LowDigits(m + NAME_CYCLE, 4) == LowDigits(m, 4) by {
        assert Pow10(4) == NAME_CYCLE;
        LowDigitsWrap(m, 4);
      }
      assert m % NAME_CYCLE == n % NAME_CYCLE by {
        CycleShift(m);
      }
    }
  }

  lemma CycleShift(m: nat)
    ensures (m + NAME_CYCLE) % NAME_CYCLE == m % NAME_CYCLE
  {
  }

  /** Every row the loader keeps is also kept by the splitter. */
  lemma LoaderRowsPassFilter(line: string)
    requires Parse(line).Some?
    ensures Keep(line)
  {
  }

  /** The splitter keeps every TERR row, the loader only those of AS, EH and SJ. */
  lemma OtherTerritoriesKeptThenDropped(f: seq<string>)
    requires |f| == FIELD_COUNT && Separable(f, '\t')
    requires f[FEATURE_CODE] == "TERR" && !IsParentTerritory(f[COUNTRY_CODE])
    ensures Keep(Join(f, '\t')) && Parse(Join(f, '\t')).None?
  {
    SplitJoin(f, '\t');
  }

  /** The splitter keeps every PCL-prefixed code but PCLH; the loader only six of them. */
  lemma OtherPclCodesKeptThenDropped(f: seq<string>)
    requires |f| == FIELD_COUNT && Separable(f, '\t')
    requires "PCL" <= f[FEATURE_CODE] && f[FEATURE_CODE] != "PCLH" && !IsCountryCode(f[FEATURE_CODE])
    ensures Keep(Join(f, '\t')) && Parse(Join(f, '\t')).None?
  {
    SplitJoin(f, '\t');
    var code := f[FEATURE_CODE];
    assert code[0] == 'P';
    assert code !in {"TERR", "ADM1", "ADM2", "ADM3", "ADM4", "ADM5", "ADMD"};
    assert Accepted(code);
  }

  /** The splitter keeps rows with more than 19 fields; the loader drops them. */
  lemma LongRowsKeptThenDropped(f: seq<string>)
    requires |f| > FIELD_COUNT && Separable(f, '\t') && Accepted(f[FEATURE_CODE])
    ensures Keep(Join(f, '\t')) && Parse(Join(f, '\t')).None?
  {
    SplitJoin(f, '\t');
  }

  /** The chunk name ends in the low four decimal digits of its number. */
  lemma ChunkNameDigits(n: nat)
    ensures ChunkName(n) == "world" + LowDigits(n, 4) + ".txt"
  {
    assert "000" == Zeros(3) by {
      assert Zeros(1) == "0";
      assert Zeros(2) == "00";
    }
    PaddedSuffixIsLowDigits(n, 4);
  }

  /** Chunks 0 to 9999 get distinct names. */
  lemma ChunkNameInjective(n: nat, m: nat)
    requires n < 10000 && m < 10000
    ensures ChunkName(n) == ChunkName(m) <==> n == m
  {
    ChunkNameDigits(n);
    ChunkNameDigits(m);
    NameAffixes(LowDigits(n, 4), LowDigits(m, 4));
    assert Pow10(4) == 10000;
    LowDigitsInjective(n, m, 4);
  }

  lemma NameAffixes(a: string, b: string)
    requires |a| == |b|
    ensures "world" + a + ".txt" == "world" + b + ".txt" <==> a == b
  {
    if "world" + a + ".txt" == "world" + b + ".txt" {
      assert forall i :: 0 <= i < |a| ==> a[i] == ("world" + a + ".txt")[i + 5];
      assert forall i :: 0 <= i < |b| ==> b[i] == ("world" + b + ".txt")[i + 5];
    }
  }

  /** Chunk n + 10000 wraps round to the name of chunk n. */
  lemma ChunkNameWraps(n: nat)
    ensures ChunkName(n + 10000) == ChunkName(n)
  {
    ChunkNameDigits(n);
    ChunkNameDigits(n + 10000);
    assert Pow10(4) == 10000;
    LowDigitsWrap(n, 4);
  }

  function Pow10(k: nat): (r: nat)
    ensures r >= 1
  {
    if k == 0 then 1 else 10 * Pow10(k - 1)
  }

  lemma DigitInjective(a: nat, b: nat)
    requires a < 10 && b < 10 && Digit(a) == Digit(b)
    ensures a == b
  {
  }

  /** Numbers below 10^k have distinct k-digit renderings. */
  lemma {:induction false} LowDigitsInjective(n: nat, m: nat, k: nat)
    requires n < Pow10(k) && m < Pow10(k)
    ensures LowDigits(n, k) == LowDigits(m, k) <==> n == m
  {
    if k > 0 && LowDigits(n, k) == LowDigits(m, k) {
      var a, b := LowDigits(n, k), LowDigits(m, k);
      assert a[k - 1] == Digit(n % 10) && b[k - 1] == Digit(m % 10);
      DigitInjective(n % 10, m % 10);
      assert a[..k - 1] == LowDigits(n / 10, k - 1);
      assert b[..k - 1] == LowDigits(m / 10, k - 1);
      LowDigitsInjective(n / 10, m / 10, k - 1);
    }
  }

  /** Adding 10^k does not change the k low digits. */
  lemma {:induction false} LowDigitsWrap(n: nat, k: nat)
    ensures LowDigits(n + Pow10(k), k) == LowDigits(n, k)
  {
    if k > 0 {
      var q := Pow10(k - 1);
      assert (n + 10 * q) % 10 == n % 10;
      assert (n + 10 * q) / 10 == n / 10 + q;
      LowDigitsWrap(n / 10, k - 1);
    }
  }

  /** 0 to 9999 are zero-padded to four digits. */
  lemma ChunkNameExamples()
    ensures ChunkName(0) == "world0000.txt"
    ensures ChunkName(12) == "world0012.txt"
    ensures ChunkName(10012) == "world0012.txt"
  {
    ChunkNameWraps(12);
  }

  /**
   * A chunk file, read back and split on newlines, gives the lines written
   * to it and one final empty line, which the loader drops as malformed.
   */
  lemma ChunkLines(ks: seq<string>)
    requires Separable(ks, '\n')
    ensures Split(Terminated(ks), '\n') == ks + [""]
    ensures Parse("").None?
  {
    TerminatedIsJoin(ks);
    assert Separable(ks + [""], '\n') by {
      forall i | 0 <= i < |ks + [""]| ensures '\n' !in (ks + [""])[i] {
        if i < |ks| {
          assert (ks + [""])[i] == ks[i];
        }
      }
    }
    SplitJoin(ks + [""], '\n');
  }

  lemma {:induction false} TerminatedIsJoin(ks: seq<string>)
    ensures Terminated(ks) == Join(ks + [""], '\n')
    decreases |ks|
  {
    if ks == [] {
      assert Join([""], '\n') == "";
    } else {
      var n := |ks|;
      var init, x := ks[..n - 1], ks[n - 1];
      assert ks == init + [x];
      JoinSnoc(ks, "", '\n');
      assert Join(ks + [""], '\n') == Join(ks, '\n') + "\n";
      if init == [] {
        assert Terminated(ks) == x + "\n";
      } else {
        TerminatedIsJoin(init);
        JoinSnoc(init, "", '\n');
        JoinSnoc(init, x, '\n');
        assert Terminated(init) == Join(init, '\n') + "\n";
      }
    }
  }

  /** The kept lines that chunk n receives: positions n * 100000 up to (n + 1) * 100000. */
  function Block(ks: seq<string>, n: nat): seq<string>
  {
    var lo := if n * LINES_PER_FILE < |ks| then n * LINES_PER_FILE else |ks|;
    var hi := if (n + 1) * LINES_PER_FILE < |ks| then (n + 1) * LINES_PER_FILE else |ks|;
    ks[lo..hi]
  }

  /**
   * Below a billion kept lines, chunk n (n < 10000) holds exactly the n-th
   * block of 100000 kept lines, in order, each with its newline.
   */
  lemma {:induction false} ChunkHoldsBlock(ks: seq<string>, n: nat)
    requires n < NAME_CYCLE && |ks| <= NAME_CYCLE * LINES_PER_FILE
    ensures Routed(ks, 0, n) == Terminated(Block(ks, n))
    decreases |ks|
  {
    if ks != [] {
      var i := |ks| - 1;
      ChunkHoldsBlock(ks[..i], n);
      BlockSnoc(ks, n);
      var b0 := Block(ks[..i], n);
      if FileNumber(i) == n {
        assert (b0 + [ks[i]])[..|b0|] == b0;
        assert Terminated(b0 + [ks[i]]) == Terminated(b0) + ks[i] + "\n";
      } else {
        assert Block(ks, n) == b0;
        assert Routed(ks, 0, n) == Routed(ks[..i], 0, n) + "";
      }
    }
  }

  /** A kept line joins block n exactly when its file number is n. */
  lemma BlockSnoc(ks: seq<string>, n: nat)
    requires ks != []
    ensures var i := |ks| - 1;
      Block(ks, n) == Block(ks[..i], n) + (if FileNumber(i) == n then [ks[i]] else [])
  {
    var i := |ks| - 1;
    var f := FileNumber(i);
    FileNumberRange(i);
    if f < n {
      assert i < n * LINES_PER_FILE;
      BlockSnocBefore(ks, n);
    } else if f > n {
      assert (n + 1) * LINES_PER_FILE <= i;
      BlockSnocAfter(ks, n);
    } else {
      BlockSnocWithin(ks, n);
    }
  }

  lemma BlockSnocBefore(ks: seq<string>, n: nat)
    requires ks != [] && |ks| - 1 < n * LINES_PER_FILE
    ensures Block(ks, n) == Block(ks[..|ks| - 1], n)
  {
  }

  lemma BlockSnocAfter(ks: seq<string>, n: nat)
    requires ks != [] && (n + 1) * LINES_PER_FILE <= |ks| - 1
    ensures Block(ks, n) == Block(ks[..|ks| - 1], n)
  {
    var i := |ks| - 1;
    assert Block(ks, n) == ks[n * LINES_PER_FILE..(n + 1) * LINES_PER_FILE];
    assert Block(ks[..i], n) == ks[..i][n * LINES_PER_FILE..(n + 1) * LINES_PER_FILE];
  }

  lemma BlockSnocWithin(ks: seq<string>, n: nat)
    requires ks != [] && n * LINES_PER_FILE <= |ks| - 1 < (n + 1) * LINES_PER_FILE
    ensures Block(ks, n) == Block(ks[..|ks| - 1], n) + [ks[|ks| - 1]]
  {
    var i := |ks| - 1;
    assert Block(ks, n) == ks[n * LINES_PER_FILE..i + 1];
    assert Block(ks[..i], n) == ks[..i][n * LINES_PER_FILE..i];
    assert ks[n * LINES_PER_FILE..i + 1] == ks[n * LINES_PER_FILE..i] + [ks[i]];
  }
}
