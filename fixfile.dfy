/** FixFile.py: a Bernese fixed-station file lists one station name per
    line; `read` returns them as `Station(code, name)` in file order. */
module FixFile {
  import opened Base
  import opened Text
  import opened FortranLayout
  import opened FortranDecode
  import opened Fortran
  import Util

  /** `Station(code, name)`. */
  datatype Station = Station(code: string, name: string)

  const LayoutText := "A16"
  const FieldNames := "name"

  /** The compiled form of `Format('A16','name',True)`. */
  function Layout(): Compiled {
    Compiled(LayoutText, [Descriptor(1, 16, Str(true))], 16, 1, Some(["name"]))
  }

  lemma LayoutWellFormed()
    ensures WellFormed(Layout())
  {
    assert Layout().fields[..0] == [];
  }

  lemma LayoutCompiles()
    ensures Compile(LayoutText, Some(FieldNames), true) == Ok(Layout())
  {
    var ws := [Written("", 'A', "16", "")];
    var names := ["name"];
    assert RenderAll(ws) == LayoutText;
    assert Descriptors(TokensOf(ws), true) == Layout().fields by {
      assert "16"[..1] == "1" && "1"[..0] == [];
    }
    LayoutWellFormed();
    assert Join(names, " ") == FieldNames && IsWord(names[0]);
    CompileRendered(ws, names, true);
  }

  /** The station name on a line: its first 16 characters, trimmed. */
  function NameOf(l: string): string {
    Strip(Pad(l, 16)[..16])
  }

  /** The record `stnfmt.read(l)` returns: a string slice cannot fail to
      convert, so every line decodes. */
  lemma LineDecodes(l: string)
    ensures WellFormed(Layout())
    ensures DecodeLine(Layout(), l) == Ok(Record(Some(["name"]), [StrVal(NameOf(l))]))
  {
    LayoutWellFormed();
    LayoutCells();
    var line := Pad(l, 16);
    NameSlice(line);
    DecodeOne(Cell(16, Str(true)), line, Ok(StrVal(NameOf(l))));
  }

  lemma LayoutCells()
    ensures CellsOf(Layout().fields) == [Cell(16, Str(true))]
  {
    assert Layout().fields[..0] == [];
  }

  lemma NameSlice(line: string)
    requires |line| >= 16
    ensures SliceValue(line, Placed(0, Cell(16, Str(true)))) == Ok(StrVal(Strip(line[..16])))
  {
    assert line[0..16] == line[..16];
  }

  predicate StationRecord(r: Record) {
    |r.values| == 1 && r.values[0].StrVal?
  }

  predicate StationRecords(records: seq<Record>) {
    forall k :: 0 <= k < |records| ==> StationRecord(records[k])
  }

  /** The station line 11 appends for a record. */
  function StationOf(r: Record): Station
    requires StationRecord(r)
  {
    Station(Head(r.values[0].s, 4), r.values[0].s)
  }

  function StationList(records: seq<Record>): (stns: seq<Station>)
    requires StationRecords(records)
    ensures |stns| == |records|
  {
    seq(|records|, k requires 0 <= k < |records| => StationOf(records[k]))
  }

  /** The record of one line. */
  function RecordOf(l: string): Record {
    Record(Some(["name"]), [StrVal(NameOf(l))])
  }

  /** The records of a line stream, one per line. */
  function Named(kept: seq<string>): (rs: seq<Record>)
    ensures |rs| == |kept| && StationRecords(rs)
  {
    seq(|kept|, k requires 0 <= k < |kept| => RecordOf(kept[k]))
  }

  lemma NamedSnoc(kept: seq<string>)
    requires kept != []
    ensures Named(kept) == Named(kept[..|kept| - 1]) + [RecordOf(kept[|kept| - 1])]
  {
    var init := kept[..|kept| - 1];
    assert forall k :: 0 <= k < |init| ==> Named(kept)[k] == Named(init)[k];
  }

  /** Every kept line yields its record. */
  lemma {:induction false} IterateAll(kept: seq<string>)
    ensures WellFormed(Layout())
    ensures Iterate(Layout(), kept, false, false) == Stream(Named(kept), None)
    decreases |kept|
  {
    LayoutWellFormed();
    if kept != [] {
      var init := kept[..|kept| - 1];
      var l := kept[|kept| - 1];
      var prev := Iterate(Layout(), init, false, false);
      assert prev == Stream(Named(init), None) by { IterateAll(init); }
      NamedSnoc(kept);
      assert DecodeLine(Layout(), l) == Ok(RecordOf(l)) by { LineDecodes(l); }
    }
  }

  /** The stream after the header lines, blank lines dropped. */
  lemma StreamRecords(lines: seq<string>)
    ensures WellFormed(Layout())
    ensures Iterate(Layout(), lines, false, true) == Stream(Named(NonBlank(lines)), None)
  {
    LayoutWellFormed();
    IterateNonBlank(Layout(), lines, false);
    IterateAll(NonBlank(lines));
  }

  /** What `read(f)` returns, or the exception it raises. */
  function Stations(env: Util.Env, fs: FileSystem, f: string): Result<seq<Station>> {
    var path := Util.ExpandPath(env, f);
    if path !in fs then Err(FileNotFound(path))
    else
      var lines := Drop(fs[path], 5);
      StreamRecords(lines);
      var st := Iterate(Layout(), lines, false, true);
      if st.failure.Some? then Err(st.failure.value) else Ok(StationList(st.records))
  }

  /** An existing file always reads: one station per non-blank line after
      the five header lines, in file order, duplicates included, the code
      being the first four characters of the trimmed name. */
  lemma StationsOfLines(env: Util.Env, fs: FileSystem, f: string)
    requires Util.ExpandPath(env, f) in fs
    ensures var kept := NonBlank(Drop(fs[Util.ExpandPath(env, f)], 5));
      && Stations(env, fs, f).Ok?
      && |Stations(env, fs, f).value| == |kept|
      && forall k :: 0 <= k < |kept| ==>
           Stations(env, fs, f).value[k] == Station(Head(NameOf(kept[k]), 4), NameOf(kept[k]))
  {
    StreamRecords(Drop(fs[Util.ExpandPath(env, f)], 5));
  }

  /** `read(f)`. */
  method Read(env: Util.Env, fs: FileSystem, f: string) returns (r: Result<seq<Station>>)
    ensures r == Stations(env, fs, f)
  {
    var made := Format.New(LayoutText, Some(FieldNames), true);
    assert made.Ok? && made.value.State() == Layout() by { LayoutCompiles(); }
    var stnfmt := made.value;
    var path := Util.ExpandPath(env, f);
    var records, failure := stnfmt.ReadFile(fs, path, false, 5, true);
    if failure.Some? {
      return Err(failure.value);
    }
    assert StationRecords(records) by { StreamRecords(Drop(fs[path], 5)); }
    var stns := Collect(records);
    return Ok(stns);
  }

  /** The loop of lines 10-11 over the decoded records. */
  method Collect(records: seq<Record>) returns (stns: seq<Station>)
    requires StationRecords(records)
    ensures stns == StationList(records)
  {
    stns := [];
    for i := 0 to |records|
      invariant stns == StationList(records[..i])
    {
      assert records[..i + 1] == records[..i] + [records[i]];
      stns := stns + [Station(Head(records[i].values[0].s, 4), records[i].values[0].s)];
    }
    assert records[..|records|] == records;
  }
}
