/** ClusterFile.py: a Bernese cluster file lists one station per line with
    the cluster it belongs to; `read` groups the cluster ids by station
    name. */
module ClusterFile {
  import opened Base
  import opened Text
  import opened FortranLayout
  import opened FortranDecode
  import opened Fortran
  import Util

  /** `StationCluster(code, name, clusters)`. */
  datatype StationCluster = StationCluster(code: string, name: string, clusters: seq<int>)

  const LayoutText := "A16,I5"
  const FieldNames := "name cluster"

  /** The compiled form of `Format('A16,I5','name cluster',True)`. */
  function Layout(): Compiled {
    Compiled(LayoutText, [Descriptor(1, 16, Str(true)), Descriptor(1, 5, Int)], 21, 2, Some(["name", "cluster"]))
  }

  lemma LayoutCompiles()
    ensures Compile(LayoutText, Some(FieldNames), true) == Ok(Layout())
  {
    var ws := [Written("", 'A', "16", ""), Written("", 'I', "5", "")];
    var names := ["name", "cluster"];
    assert RenderAll(ws) == LayoutText by {
      assert Render(ws[0]) == "A16" && Render(ws[1]) == "I5";
    }
    assert Descriptors(TokensOf(ws), true) == Layout().fields by {
      assert "16"[..1] == "1" && "1"[..0] == [] && "5"[..0] == [];
    }
    LayoutWellFormed();
    assert Join(names, " ") == FieldNames && IsWord(names[0]) && IsWord(names[1]);
    CompileRendered(ws, names, true);
  }

  lemma LayoutWellFormed()
    ensures WellFormed(Layout())
  {
    var fields := Layout().fields;
    assert fields[..1] == [fields[0]] && fields[..1][..0] == [];
  }

  lemma LayoutCells()
    ensures CellsOf(Layout().fields) == [Cell(16, Str(true)), Cell(5, Int)]
  {
    var fields := Layout().fields;
    assert fields[..1][..0] == [];
    assert CellsOf(fields[..1]) == [Cell(16, Str(true))];
  }

  lemma LayoutKinds()
    ensures Kinds(Layout()) == [Str(true), Int]
  {
    LayoutCells();
    var cells := CellsOf(Layout().fields);
    assert cells[..1] == [Cell(16, Str(true))] && cells[..1][..0] == [];
    assert ValueKinds(cells[..1]) == [Str(true)];
  }

  /** What `clufmt.read(l)` returns for one line: the first 16 characters
      trimmed, and the next 5 as an integer, after padding a short line. */
  function ClusterOf(l: string): Result<Record> {
    var line := Pad(l, 21);
    var id := line[16..21];
    match ParseInt(id)
    case Some(n) => Ok(Record(Some(["name", "cluster"]), [StrVal(Strip(line[..16])), IntVal(n)]))
    case None => Err(BadInteger(id))
  }

  lemma LineDecodes(l: string)
    ensures WellFormed(Layout())
    ensures DecodeLine(Layout(), l) == ClusterOf(l)
  {
    LayoutWellFormed();
    LayoutCells();
    var line := Pad(l, 21);
    assert line[0..16] == line[..16];
    DecodePair(Cell(16, Str(true)), Cell(5, Int), line,
      SliceValue(line, Placed(0, Cell(16, Str(true)))), SliceValue(line, Placed(16, Cell(5, Int))));
  }

  /** A decoded line of the cluster file: the trimmed name and the id. */
  predicate ClusterRecord(r: Record) {
    |r.values| == 2 && r.values[0].StrVal? && r.values[1].IntVal?
  }

  predicate ClusterRecords(records: seq<Record>) {
    forall k :: 0 <= k < |records| ==> ClusterRecord(records[k])
  }

  function Name(r: Record): string
    requires ClusterRecord(r)
  {
    r.values[0].s
  }

  function Id(r: Record): int
    requires ClusterRecord(r)
  {
    r.values[1].i
  }

  /** Every record the cluster layout yields is a name and an id. */
  lemma StreamRecords(lines: seq<string>)
    ensures WellFormed(Layout())
    ensures ClusterRecords(Iterate(Layout(), lines, false, true).records)
  {
    LayoutWellFormed();
    LayoutKinds();
    IterateTyped(Layout(), lines, false, true);
    var records := Iterate(Layout(), lines, false, true).records;
    forall k | 0 <= k < |records|
      ensures ClusterRecord(records[k])
    {
      assert Typed(records[k].values, [Str(true), Int]);
      assert OfKind(records[k].values[0], Str(true)) && OfKind(records[k].values[1], Int);
    }
  }

  /** The loop body of lines 11-14 as a function of the dictionary: a
      known name has the id appended to its list, a new one gets a record
      of its own. */
  function Add(m: map<string, StationCluster>, name: string, id: int): map<string, StationCluster> {
    if name in m then m[name := m[name].(clusters := m[name].clusters + [id])]
    else m[name := StationCluster(Head(name, 4), name, [id])]
  }

  /** The dictionary after the loop has run over the records. */
  function Grouped(records: seq<Record>): map<string, StationCluster>
    requires ClusterRecords(records)
  {
    if records == [] then map[]
    else
      var r := records[|records| - 1];
      Add(Grouped(records[..|records| - 1]), Name(r), Id(r))
  }

  /** The ids of the records named `name`, in record order. */
  function IdsOf(records: seq<Record>, name: string): seq<int>
    requires ClusterRecords(records)
  {
    if records == [] then []
    else
      var r := records[|records| - 1];
      IdsOf(records[..|records| - 1], name) + (if Name(r) == name then [Id(r)] else [])
  }

  /** The distinct names, in order of first appearance. */
  function Order(records: seq<Record>): seq<string>
    requires ClusterRecords(records)
  {
    if records == [] then []
    else
      var ns := Order(records[..|records| - 1]);
      var n := Name(records[|records| - 1]);
      if n in ns then ns else ns + [n]
  }

  predicate Distinct(ns: seq<string>) {
    forall i, j :: 0 <= i < j < |ns| ==> ns[i] != ns[j]
  }

  predicate Named(records: seq<Record>, n: string)
    requires ClusterRecords(records)
  {
    exists k :: 0 <= k < |records| && Name(records[k]) == n
  }

  /** The distinct names are those of the records, each listed once; a
      name no record carries has no ids. */
  lemma {:induction false} OrderNames(records: seq<Record>)
    requires ClusterRecords(records)
    ensures Distinct(Order(records))
    ensures forall n :: n in Order(records) <==> Named(records, n)
    ensures forall n :: n !in Order(records) ==> IdsOf(records, n) == []
    decreases |records|
  {
    if records != [] {
      var init := records[..|records| - 1];
      var last := |records| - 1;
      OrderNames(init);
      forall n
        ensures Named(records, n) <==> Named(init, n) || Name(records[last]) == n
      {
        if Named(init, n) {
          var k :| 0 <= k < |init| && Name(init[k]) == n;
          assert records[k] == init[k];
        }
        if Named(records, n) && Name(records[last]) != n {
          var k :| 0 <= k < |records| && Name(records[k]) == n;
          assert init[k] == records[k];
        }
      }
    }
  }

  /** Line 14 makes the record of a name on its first line, with the code
      taken from the name; line 12 appends the ids of later lines, so each
      list holds the ids of that name's lines in file order. The keys are
      exactly the names read. */
  lemma {:induction false} GroupedEntries(records: seq<Record>)
    requires ClusterRecords(records)
    ensures forall n :: n in Grouped(records) <==> Named(records, n)
    ensures forall n :: n in Grouped(records) ==>
              Grouped(records)[n] == StationCluster(Head(n, 4), n, IdsOf(records, n))
    decreases |records|
  {
    OrderNames(records);
    if records != [] {
      var init := records[..|records| - 1];
      GroupedEntries(init);
      OrderNames(init);
    }
  }

  /** Σ of the list lengths of the named entries. */
  function Total(m: map<string, StationCluster>, ns: seq<string>): nat
    requires forall k :: 0 <= k < |ns| ==> ns[k] in m
  {
    if ns == [] then 0 else Total(m, ns[..|ns| - 1]) + |m[ns[|ns| - 1]].clusters|
  }

  function TotalIds(records: seq<Record>, ns: seq<string>): nat
    requires ClusterRecords(records)
  {
    if ns == [] then 0 else TotalIds(records, ns[..|ns| - 1]) + |IdsOf(records, ns[|ns| - 1])|
  }

  lemma {:induction false} TotalIdsSnoc(records: seq<Record>, r: Record, ns: seq<string>)
    requires ClusterRecords(records) && ClusterRecord(r) && Distinct(ns)
    ensures ClusterRecords(records + [r])
    ensures TotalIds(records + [r], ns) == TotalIds(records, ns) + (if Name(r) in ns then 1 else 0)
    decreases |ns|
  {
    assert (records + [r])[..|records|] == records;
    assert forall k :: 0 <= k < |records| ==> records[k] == (records + [r])[k];
    if ns != [] {
      var init := ns[..|ns| - 1];
      TotalIdsSnoc(records, r, init);
      assert Name(r) in ns <==> Name(r) in init || Name(r) == ns[|ns| - 1];
    }
  }

  lemma {:induction false} TotalMatches(records: seq<Record>, ns: seq<string>)
    requires ClusterRecords(records)
    requires forall k :: 0 <= k < |ns| ==> Named(records, ns[k])
    ensures forall k :: 0 <= k < |ns| ==> ns[k] in Grouped(records)
    ensures Total(Grouped(records), ns) == TotalIds(records, ns)
    decreases |ns|
  {
    GroupedEntries(records);
    if ns != [] {
      TotalMatches(records, ns[..|ns| - 1]);
    }
  }

  lemma {:induction false} TotalIdsOrder(records: seq<Record>)
    requires ClusterRecords(records)
    ensures TotalIds(records, Order(records)) == |records|
    decreases |records|
  {
    if records != [] {
      var init := records[..|records| - 1];
      var r := records[|records| - 1];
      assert records == init + [r];
      TotalIdsOrder(init);
      OrderNames(init);
      OrderNames(records);
      var ns := Order(init);
      TotalIdsSnoc(init, r, ns);
      if Name(r) !in ns {
        assert (ns + [Name(r)])[..|ns|] == ns;
        assert IdsOf(init, Name(r)) == [];
      }
    }
  }

  /** Every record read contributes one id: the lists of all entries
      together hold as many ids as there are data records. */
  lemma GroupedTotal(records: seq<Record>)
    requires ClusterRecords(records)
    ensures forall k :: 0 <= k < |Order(records)| ==> Order(records)[k] in Grouped(records)
    ensures Total(Grouped(records), Order(records)) == |records|
  {
    OrderNames(records);
    TotalMatches(records, Order(records));
    TotalIdsOrder(records);
  }

  /** What `read(f)` returns, or the exception it raises: a missing file,
      or the first data line whose cluster id does not parse. */
  function Clusters(env: Util.Env, fs: FileSystem, f: string): Result<map<string, StationCluster>> {
    var path := Util.ExpandPath(env, f);
    if path !in fs then Err(FileNotFound(path))
    else
      var lines := Drop(fs[path], 5);
      StreamRecords(lines);
      var st := Iterate(Layout(), lines, false, true);
      if st.failure.Some? then Err(st.failure.value) else Ok(Grouped(st.records))
  }

  /** A data line `read` cannot decode: not blank, and the 5 characters
      after the name do not hold an integer. */
  predicate BadLine(l: string) {
    !Blank(l) && ParseInt(Pad(l, 21)[16..21]).None?
  }

  lemma FailsIsBad(l: string)
    ensures WellFormed(Layout())
    ensures Fails(Layout(), l, true) <==> BadLine(l)
    ensures Fails(Layout(), l, true) ==> DecodeLine(Layout(), l).error == BadInteger(Pad(l, 21)[16..21])
  {
    LineDecodes(l);
  }

  lemma {:induction false} StreamAbort(lines: seq<string>, k: nat)
    requires k <= |lines| && (k < |lines| ==> BadLine(lines[k])) && forall j :: 0 <= j < k ==> !BadLine(lines[j])
    ensures WellFormed(Layout())
    ensures k < |lines| ==> Iterate(Layout(), lines, false, true).failure == Some(BadInteger(Pad(lines[k], 21)[16..21]))
    ensures k == |lines| ==> Iterate(Layout(), lines, false, true).failure.None?
  {
    LayoutWellFormed();
    forall j | 0 <= j < |lines|
      ensures Fails(Layout(), lines[j], true) <==> BadLine(lines[j])
    {
      FailsIsBad(lines[j]);
    }
    FirstFailureIs(Layout(), lines, true, k);
    IterateStrict(Layout(), lines, true);
    if k < |lines| {
      FailsIsBad(lines[k]);
    }
  }

  /** Errors are not skipped (line 10): the first bad line after the five
      header lines aborts the read with its ValueError; with no bad line
      the read succeeds. */
  lemma ClustersAbort(env: Util.Env, fs: FileSystem, f: string, k: nat)
    requires Util.ExpandPath(env, f) in fs
    requires var lines := Drop(fs[Util.ExpandPath(env, f)], 5);
      k <= |lines| && (k < |lines| ==> BadLine(lines[k])) && forall j :: 0 <= j < k ==> !BadLine(lines[j])
    ensures var lines := Drop(fs[Util.ExpandPath(env, f)], 5);
      && (k < |lines| ==> Clusters(env, fs, f) == Err(BadInteger(Pad(lines[k], 21)[16..21])))
      && (k == |lines| ==> Clusters(env, fs, f).Ok?)
  {
    StreamAbort(Drop(fs[Util.ExpandPath(env, f)], 5), k);
  }

  /** `read(f)`. The records are grouped once the file is read; since an
      exception discards the dictionary, this is the same as grouping them
      as they come. */
  method Read(env: Util.Env, fs: FileSystem, f: string) returns (r: Result<map<string, StationCluster>>)
    ensures r == Clusters(env, fs, f)
  {
    var made := Format.New(LayoutText, Some(FieldNames), true);
    assert made.Ok? && made.value.State() == Layout() by { LayoutCompiles(); }
    var clufmt := made.value;
    var path := Util.ExpandPath(env, f);
    var records, failure := clufmt.ReadFile(fs, path, false, 5, true);
    if failure.Some? {
      return Err(failure.value);
    }
    assert ClusterRecords(records) by { StreamRecords(Drop(fs[path], 5)); }
    var clusters := Group(records);
    return Ok(clusters);
  }

  /** The loop of lines 10-14 over the decoded records. */
  method Group(records: seq<Record>) returns (clusters: map<string, StationCluster>)
    requires ClusterRecords(records)
    ensures clusters == Grouped(records)
  {
    clusters := map[];
    var i := 0;
    while i < |records|
      invariant i <= |records|
      invariant clusters == Grouped(records[..i])
    {
      var data := records[i];
      assert records[..i + 1][..i] == records[..i];
      if data.values[0].s in clusters {
        var entry := clusters[data.values[0].s];
        clusters := clusters[data.values[0].s := entry.(clusters := entry.clusters + [data.values[1].i])];
      } else {
        clusters := clusters[data.values[0].s := StationCluster(Head(data.values[0].s, 4), data.values[0].s, [data.values[1].i])];
      }
      i := i + 1;
    }
    assert records[..i] == records;
  }
}
