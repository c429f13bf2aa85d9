/** The two fixed-column layouts of CoordFile.py: the datum line and the
    station lines of a Bernese coordinate (or velocity) file, compiled and
    decoded in closed form. */
module CoordLines {
  import opened Base
  import opened Text
  import opened FortranLayout
  import opened FortranDecode

  /** A Cartesian triple of F fields, each kept as the text `float` parses. */
  datatype Xyz = Xyz(x: string, y: string, z: string)

  /** A decoded station line: the fields `id name X Y Z flag`. */
  datatype Station = Station(id: int, name: string, xyz: Xyz, flag: string)

  // ---------------------------------------------------------------------
  // The two layouts

  /** The layouts of lines 51-52, token by token: "22X,A18,7X,A20" and
      "I3,2X,A16,3F15.4,4X,A1", with the field names "datum epoch" and
      "id name X Y Z flag". */
  const DatumText := Join(["22X", "A18", "7X", "A20"], ",")
  const DatumNames := Join(DatumFieldNames(), " ")
  const CoordText := Join(["I3", "2X", "A16", "3F15.4", "4X", "A1"], ",")
  const CoordNames := Join(CoordFieldNames(), " ")

  /** The compiled form of `Format('22X,A18,7X,A20','datum epoch',True)`. */
  function DatumLayout(): Compiled {
    Compiled(DatumText,
      [Descriptor(22, 1, Skip), Descriptor(1, 18, Str(true)), Descriptor(7, 1, Skip), Descriptor(1, 20, Str(true))],
      67, 2, Some(["datum", "epoch"]))
  }

  /** The compiled form of `Format('I3,2X,A16,3F15.4,4X,A1','id name X Y Z flag',True)`. */
  function CoordLayout(): Compiled {
    Compiled(CoordText,
      [Descriptor(1, 3, Int), Descriptor(2, 1, Skip), Descriptor(1, 16, Str(true)),
       Descriptor(3, 15, Real), Descriptor(4, 1, Skip), Descriptor(1, 1, Str(true))],
      71, 6, Some(["id", "name", "X", "Y", "Z", "flag"]))
  }

  lemma DatumWellFormed()
    ensures WellFormed(DatumLayout())
  {
    var f := DatumLayout().fields;
    assert f[..1][..0] == [] && f[..2][..1] == f[..1] && f[..3][..2] == f[..2] && f[..4] == f;
    assert Length(f[..1]) == 22 && FieldCount(f[..1]) == 0;
    assert Length(f[..2]) == 40 && FieldCount(f[..2]) == 1;
    assert Length(f[..3]) == 47 && FieldCount(f[..3]) == 1;
  }

  lemma CoordWellFormed()
    ensures WellFormed(CoordLayout())
  {
    var f := CoordLayout().fields;
    assert f[..1][..0] == [] && f[..2][..1] == f[..1] && f[..3][..2] == f[..2];
    assert f[..4][..3] == f[..3] && f[..5][..4] == f[..4] && f[..6][..5] == f[..5] && f[..6] == f;
    assert Length(f[..1]) == 3 && FieldCount(f[..1]) == 1;
    assert Length(f[..2]) == 5 && FieldCount(f[..2]) == 1;
    assert Length(f[..3]) == 21 && FieldCount(f[..3]) == 2;
    assert Length(f[..4]) == 66 && FieldCount(f[..4]) == 5;
    assert Length(f[..5]) == 70 && FieldCount(f[..5]) == 5;
  }

  /** The tokens of the two layouts as written. */
  function DatumWritten(): seq<Written> {
    [Written("22", 'X', "", ""), Written("", 'A', "18", ""), Written("7", 'X', "", ""), Written("", 'A', "20", "")]
  }

  function CoordWritten(): seq<Written> {
    [Written("", 'I', "3", ""), Written("2", 'X', "", ""), Written("", 'A', "16", ""),
     Written("3", 'F', "15", "4"), Written("4", 'X', "", ""), Written("", 'A', "1", "")]
  }

  /** A token as written, its text and its descriptor. */
  predicate TokenReads(w: Written, text: string, d: Descriptor) {
    WellWritten(w) && Render(w) == text && DescriptorOf(TokenOf(w), true) == d
  }

  lemma DatumTokenFacts()
    ensures forall k :: 0 <= k < 4 ==>
      TokenReads(DatumWritten()[k], ["22X", "A18", "7X", "A20"][k], DatumLayout().fields[k])
  {
    var ws := DatumWritten();
    var fs := DatumLayout().fields;
    assert "22"[..1] == "2" && "18"[..1] == "1" && "20"[..1] == "2" && "2"[..0] == [] && "1"[..0] == [] && "7"[..0] == [];
    assert Render(ws[0]) == "22" + ['X'] + [] + [] == "22X";
    assert Render(ws[1]) == [] + ['A'] + "18" + [] == "A18";
    assert Render(ws[2]) == "7" + ['X'] + [] + [] == "7X";
    assert Render(ws[3]) == [] + ['A'] + "20" + [] == "A20";
    assert TokenReads(ws[0], "22X", fs[0]) && TokenReads(ws[1], "A18", fs[1]);
    assert TokenReads(ws[2], "7X", fs[2]) && TokenReads(ws[3], "A20", fs[3]);
  }

  lemma DatumTokens()
    ensures RenderAll(DatumWritten()) == DatumText
    ensures forall k :: 0 <= k < |DatumWritten()| ==> WellWritten(DatumWritten()[k])
    ensures Descriptors(TokensOf(DatumWritten()), true) == DatumLayout().fields
  {
    DatumTokenFacts();
    RenderedAsJoin(DatumWritten(), ["22X", "A18", "7X", "A20"]);
    DescriptorsAre(DatumWritten(), true, DatumLayout().fields);
  }

  lemma CoordTokensHead()
    ensures forall k :: 0 <= k < 3 ==>
      TokenReads(CoordWritten()[k], ["I3", "2X", "A16"][k], CoordLayout().fields[k])
  {
    var ws := CoordWritten();
    var fs := CoordLayout().fields;
    assert "16"[..1] == "1" && "1"[..0] == [] && "3"[..0] == [] && "2"[..0] == [];
    assert Render(ws[0]) == [] + ['I'] + "3" + [] == "I3";
    assert Render(ws[1]) == "2" + ['X'] + [] + [] == "2X";
    assert Render(ws[2]) == [] + ['A'] + "16" + [] == "A16";
    assert TokenReads(ws[0], "I3", fs[0]) && TokenReads(ws[1], "2X", fs[1]) && TokenReads(ws[2], "A16", fs[2]);
  }

  lemma CoordTokensTail()
    ensures forall k :: 3 <= k < 6 ==>
      TokenReads(CoordWritten()[k], ["3F15.4", "4X", "A1"][k - 3], CoordLayout().fields[k])
  {
    var ws := CoordWritten();
    var fs := CoordLayout().fields;
    assert "15"[..1] == "1" && "1"[..0] == [] && "4"[..0] == [];
    assert Render(ws[3]) == "3" + ['F'] + "15" + ".4" == "3F15.4";
    assert Render(ws[4]) == "4" + ['X'] + [] + [] == "4X";
    assert Render(ws[5]) == [] + ['A'] + "1" + [] == "A1";
    assert TokenReads(ws[3], "3F15.4", fs[3]) && TokenReads(ws[4], "4X", fs[4]) && TokenReads(ws[5], "A1", fs[5]);
  }

  lemma CoordTokens()
    ensures RenderAll(CoordWritten()) == CoordText
    ensures forall k :: 0 <= k < |CoordWritten()| ==> WellWritten(CoordWritten()[k])
    ensures Descriptors(TokensOf(CoordWritten()), true) == CoordLayout().fields
  {
    var ws := CoordWritten();
    var texts := ["I3", "2X", "A16", "3F15.4", "4X", "A1"];
    CoordTokensHead();
    CoordTokensTail();
    assert forall k :: 0 <= k < 6 ==> TokenReads(ws[k], texts[k], CoordLayout().fields[k]) by {
      assert texts == ["I3", "2X", "A16"] + ["3F15.4", "4X", "A1"];
    }
    RenderedAsJoin(ws, texts);
    DescriptorsAre(ws, true, CoordLayout().fields);
  }

  /** The field names of the two layouts, as `split()` returns them. */
  function DatumFieldNames(): seq<string> {
    ["datum", "epoch"]
  }

  function CoordFieldNames(): seq<string> {
    ["id", "name", "X", "Y", "Z", "flag"]
  }

  lemma DatumNamesWords()
    ensures forall k :: 0 <= k < |DatumFieldNames()| ==> IsWord(DatumFieldNames()[k])
  {
    var names := DatumFieldNames();
    assert IsWord(names[0]) && IsWord(names[1]);
  }

  lemma CoordNamesWords()
    ensures forall k :: 0 <= k < |CoordFieldNames()| ==> IsWord(CoordFieldNames()[k])
  {
    var names := CoordFieldNames();
    assert IsWord(names[0]) && IsWord(names[1]) && IsWord(names[2]);
    assert IsWord(names[3]) && IsWord(names[4]) && IsWord(names[5]);
  }

  lemma DatumCompiles()
    ensures Compile(DatumText, Some(DatumNames), true) == Ok(DatumLayout())
  {
    DatumTokens();
    DatumWellFormed();
    DatumNamesWords();
    CompileRendered(DatumWritten(), DatumFieldNames(), true);
  }

  lemma CoordCompiles()
    ensures Compile(CoordText, Some(CoordNames), true) == Ok(CoordLayout())
  {
    CoordTokens();
    CoordWellFormed();
    CoordNamesWords();
    CompileRendered(CoordWritten(), CoordFieldNames(), true);
  }

  // ---------------------------------------------------------------------
  // Decoding the datum line and the station lines

  /** The datum name and the epoch text of a datum line: characters 23-40
      and 48-67, trimmed, after padding a short line. */
  function DatumField(l: string): string {
    Strip(Pad(l, 67)[22..40])
  }

  function EpochField(l: string): string {
    Strip(Pad(l, 67)[47..67])
  }

  lemma DatumCells()
    ensures var f := DatumLayout().fields;
      CellsOf(f) == Unfold(f[0]) + [Cell(18, Str(true))] + Unfold(f[2]) + [Cell(20, Str(true))]
  {
    var f := DatumLayout().fields;
    assert f[..1][..0] == [] && f[..2][..1] == f[..1] && f[..3][..2] == f[..2] && f[..4] == f;
    assert CellsOf(f[..1]) == Unfold(f[0]);
    assert Unfold(f[1]) == [Cell(18, Str(true))] && Unfold(f[3]) == [Cell(20, Str(true))];
  }

  /** `dtmfmt.read(l)`: only string and skipped fields, so it never
      raises. */
  lemma DatumDecodes(l: string)
    ensures WellFormed(DatumLayout())
    ensures DecodeLine(DatumLayout(), l) == Ok(Record(Some(DatumFieldNames()), [StrVal(DatumField(l)), StrVal(EpochField(l))]))
  {
    DatumWellFormed();
    DatumCells();
    var f := DatumLayout().fields;
    var line := Pad(l, 67);
    var c1, c3 := Cell(18, Str(true)), Cell(20, Str(true));
    var v1, v3 := StrVal(DatumField(l)), StrVal(EpochField(l));
    var a0 := Unfold(f[0]);
    DecodeSkipped([], f[0], 22, line);
    assert [] + Unfold(f[0])[..22] == a0;
    assert Span(a0) == 22 && DecodeCells(a0, line) == Ok([]);
    DecodeSnoc(a0, c1, line);
    assert SliceValue(line, Placed(22, c1)) == Ok(v1);
    var a1 := a0 + [c1];
    assert [] + [v1] == [v1];
    assert Span(a1) == 40 && DecodeCells(a1, line) == Ok([v1]);
    DecodeSkipped(a1, f[2], 7, line);
    var a2 := a1 + Unfold(f[2]);
    assert a1 + Unfold(f[2])[..7] == a2;
    assert Span(a2) == 47 && DecodeCells(a2, line) == Ok([v1]);
    DecodeSnoc(a2, c3, line);
    assert SliceValue(line, Placed(47, c3)) == Ok(v3);
    assert [v1] + [v3] == [v1, v3];
    assert DecodeCells(a2 + [c3], line) == Ok([v1, v3]);
  }

  /** The values of a padded station line, with the error of the first
      conversion that raises: the number in characters 1-3, the name in
      6-21, X, Y and Z in 22-36, 37-51 and 52-66, and the flag in character
      71. */
  function CoordValues(line: string): Result<seq<Value>>
    requires |line| >= 71
  {
    var id := Convert(Int, line[0..3]);
    var x := Convert(Real, line[21..36]);
    var y := Convert(Real, line[36..51]);
    var z := Convert(Real, line[51..66]);
    if id.Err? then Err(id.error)
    else if x.Err? then Err(x.error)
    else if y.Err? then Err(y.error)
    else if z.Err? then Err(z.error)
    else Ok([id.value, StrVal(Strip(line[5..21])), x.value, y.value, z.value, StrVal(Strip(line[70..71]))])
  }

  /** `crdfmt.read(l)` in closed form. */
  function CoordLine(l: string): Result<Record> {
    match CoordValues(Pad(l, 71))
    case Err(e) => Err(e)
    case Ok(vs) => Ok(Record(Some(CoordFieldNames()), vs))
  }

  /** The cells of a station line. */
  function CoordCellList(): seq<Cell> {
    var k, r := Cell(1, Skip), Cell(15, Real);
    [Cell(3, Int), k, k, Cell(16, Str(true)), r, r, r, k, k, k, k, Cell(1, Str(true))]
  }

  lemma CoordCells()
    ensures CellsOf(CoordLayout().fields) == CoordCellList()
  {
    var f := CoordLayout().fields;
    var k, r := Cell(1, Skip), Cell(15, Real);
    assert f[..1][..0] == [] && f[..2][..1] == f[..1] && f[..3][..2] == f[..2];
    assert f[..4][..3] == f[..3] && f[..5][..4] == f[..4] && f[..6] == f;
    assert CellsOf(f[..1]) == [Cell(3, Int)];
    assert Unfold(f[1]) == [k, k];
    assert CellsOf(f[..2]) == [Cell(3, Int), k, k];
    assert Unfold(f[2]) == [Cell(16, Str(true))];
    assert CellsOf(f[..3]) == [Cell(3, Int), k, k, Cell(16, Str(true))];
    assert Unfold(f[3]) == [r, r, r];
    assert CellsOf(f[..4]) == [Cell(3, Int), k, k, Cell(16, Str(true)), r, r, r];
    assert Unfold(f[4]) == [k, k, k, k];
    assert CellsOf(f[..5]) == [Cell(3, Int), k, k, Cell(16, Str(true)), r, r, r, k, k, k, k];
    assert Unfold(f[5]) == [Cell(1, Str(true))];
  }

  /** Any cell sequence laid out like a station line. */
  predicate CoordShaped(cells: seq<Cell>) {
    var k, r := Cell(1, Skip), Cell(15, Real);
    && |cells| == 12 && cells[0] == Cell(3, Int) && cells[1] == k && cells[2] == k
    && cells[3] == Cell(16, Str(true)) && cells[4] == r && cells[5] == r && cells[6] == r
    && cells[7] == k && cells[8] == k && cells[9] == k && cells[10] == k && cells[11] == Cell(1, Str(true))
  }

  lemma CoordSpans(cells: seq<Cell>)
    requires CoordShaped(cells)
    ensures SpanTo(cells, 1) == 3 && SpanTo(cells, 3) == 5 && SpanTo(cells, 4) == 21
    ensures SpanTo(cells, 5) == 36 && SpanTo(cells, 6) == 51 && SpanTo(cells, 7) == 66
    ensures SpanTo(cells, 11) == 70 && SpanTo(cells, 12) == 71
  {
    assert SpanTo(cells, 1) == 3;
    assert SpanTo(cells, 2) == 4;
    assert SpanTo(cells, 3) == 5;
    assert SpanTo(cells, 4) == 21;
    assert SpanTo(cells, 5) == 36;
    assert SpanTo(cells, 6) == 51;
    assert SpanTo(cells, 7) == 66;
    assert SpanTo(cells, 8) == 67;
    assert SpanTo(cells, 9) == 68;
    assert SpanTo(cells, 10) == 69;
    assert SpanTo(cells, 11) == 70;
  }

  /** Number, two skipped columns and name. */
  lemma CoordHead(cells: seq<Cell>, line: string)
    requires CoordShaped(cells) && |line| >= 71
    ensures SpanTo(cells, 1) == 3 && SpanTo(cells, 4) == 21
    ensures var id := Convert(Int, line[0..3]);
      (id.Err? ==> DecodeTo(cells, 1, line) == Err(id.error)) &&
      (id.Ok? ==> DecodeTo(cells, 4, line) == Ok([id.value, StrVal(Strip(line[5..21]))]))
  {
    CoordSpans(cells);
    var id := Convert(Int, line[0..3]);
    assert SliceValue(line, Placed(0, cells[0])) == id;
    if id.Ok? {
      assert [] + [id.value] == [id.value];
      var name := StrVal(Strip(line[5..21]));
      assert DecodeTo(cells, 1, line) == Ok([id.value]);
      assert DecodeTo(cells, 2, line) == Ok([id.value]);
      assert DecodeTo(cells, 3, line) == Ok([id.value]);
      assert SliceValue(line, Placed(5, cells[3])) == Ok(name);
      assert [id.value] + [name] == [id.value, name];
    }
  }

  /** A coordinate: cell n read at `at` after cells that decoded. */
  lemma CoordReal(cells: seq<Cell>, line: string, n: nat, at: nat, vs: seq<Value>)
    requires n < |cells| && cells[n] == Cell(15, Real)
    requires SpanTo(cells, n) == at && at + 15 <= |line| && DecodeTo(cells, n, line) == Ok(vs)
    ensures var u := Convert(Real, line[at..at + 15]);
      SpanTo(cells, n + 1) == at + 15 &&
      DecodeTo(cells, n + 1, line) == if u.Ok? then Ok(vs + [u.value]) else Err(u.error)
  {
    assert SliceValue(line, Placed(at, cells[n])) == Convert(Real, line[at..at + 15]);
  }

  /** Four skipped columns and the flag. */
  lemma CoordTail(cells: seq<Cell>, line: string, vs: seq<Value>)
    requires CoordShaped(cells) && |line| >= 71 && SpanTo(cells, 7) == 66 && DecodeTo(cells, 7, line) == Ok(vs)
    ensures SpanTo(cells, 12) == 71
    ensures DecodeTo(cells, 12, line) == Ok(vs + [StrVal(Strip(line[70..71]))])
  {
    CoordSpans(cells);
    assert DecodeTo(cells, 9, line) == Ok(vs);
    assert DecodeTo(cells, 11, line) == Ok(vs);
    assert SliceValue(line, Placed(70, cells[11])) == Ok(StrVal(Strip(line[70..71])));
  }

  /** Decoding by index follows the closed form. */
  lemma CoordDecodeTo(cells: seq<Cell>, line: string)
    requires CoordShaped(cells) && |line| >= 71
    ensures SpanTo(cells, 12) == 71 && DecodeTo(cells, 12, line) == CoordValues(line)
  {
    CoordSpans(cells);
    CoordHead(cells, line);
    var id := Convert(Int, line[0..3]);
    var x, y, z := Convert(Real, line[21..36]), Convert(Real, line[36..51]), Convert(Real, line[51..66]);
    if id.Err? {
      DecodeToStops(cells, 1, 12, line);
      return;
    }
    var name, flag := StrVal(Strip(line[5..21])), StrVal(Strip(line[70..71]));
    CoordReal(cells, line, 4, 21, [id.value, name]);
    if x.Err? {
      DecodeToStops(cells, 5, 12, line);
      return;
    }
    assert [id.value, name] + [x.value] == [id.value, name, x.value];
    CoordReal(cells, line, 5, 36, [id.value, name, x.value]);
    if y.Err? {
      DecodeToStops(cells, 6, 12, line);
      return;
    }
    assert [id.value, name, x.value] + [y.value] == [id.value, name, x.value, y.value];
    CoordReal(cells, line, 6, 51, [id.value, name, x.value, y.value]);
    if z.Err? {
      DecodeToStops(cells, 7, 12, line);
      return;
    }
    var vs := [id.value, name, x.value, y.value, z.value];
    assert [id.value, name, x.value, y.value] + [z.value] == vs;
    CoordTail(cells, line, vs);
    assert vs + [flag] == [id.value, name, x.value, y.value, z.value, flag];
  }

  /** `crdfmt.read(l)` is the closed form above. */
  lemma CoordDecodes(l: string)
    ensures WellFormed(CoordLayout())
    ensures DecodeLine(CoordLayout(), l) == CoordLine(l)
  {
    CoordWellFormed();
    CoordCells();
    var L := CoordCellList();
    var line := Pad(l, 71);
    CoordDecodeTo(L, line);
    DecodeToIs(L, 12, line);
    assert L[..12] == L;
  }

  // ---------------------------------------------------------------------
  // Station records

  /** A record with the value types of a station line. */
  predicate StationRecord(r: Record) {
    && |r.values| == 6 && r.values[0].IntVal? && r.values[1].StrVal?
    && r.values[2].RealVal? && r.values[3].RealVal? && r.values[4].RealVal? && r.values[5].StrVal?
  }

  predicate AllStations(rs: seq<Record>) {
    forall k :: 0 <= k < |rs| ==> StationRecord(rs[k])
  }

  /** The named fields of a decoded station line. */
  function AsStation(r: Record): Station
    requires StationRecord(r)
  {
    Station(r.values[0].i, r.values[1].s, Xyz(r.values[2].text, r.values[3].text, r.values[4].text), r.values[5].s)
  }

  /** Every station line that decodes gives the number, the trimmed name,
      the three coordinate texts and the trimmed flag. */
  lemma StationRecordOf(l: string)
    requires CoordLine(l).Ok?
    ensures StationRecord(CoordLine(l).value)
  {
  }

  lemma StationLine(l: string)
    requires CoordLine(l).Ok?
    ensures StationRecord(CoordLine(l).value)
    ensures var line := Pad(l, 71); var s := AsStation(CoordLine(l).value);
      && ParseInt(line[0..3]) == Some(s.id) && s.name == Strip(line[5..21]) && s.flag == Strip(line[70..71])
      && s.xyz == Xyz(Replace(line[21..36], "D", "E"), Replace(line[36..51], "D", "E"), Replace(line[51..66], "D", "E"))
  {
    var line := Pad(l, 71);
    var vs := CoordValues(line).value;
    assert vs[0] == IntVal(ParseInt(line[0..3]).value);
    assert vs[2] == RealVal(Replace(line[21..36], "D", "E"));
    assert vs[3] == RealVal(Replace(line[36..51], "D", "E"));
    assert vs[4] == RealVal(Replace(line[51..66], "D", "E"));
  }

  /** The records `readiter` yields from station lines, blank lines and
      lines that fail to decode dropped. */
  lemma {:induction false} DecodedStations(lines: seq<string>)
    ensures WellFormed(CoordLayout())
    ensures AllStations(Decoded(CoordLayout(), lines, true))
    decreases |lines|
  {
    CoordWellFormed();
    if lines != [] {
      var l := lines[0];
      DecodedStations(lines[1..]);
      LineStation(l);
      AllStationsAppend(if Dropped(l, true) || DecodeLine(CoordLayout(), l).Err? then [] else [DecodeLine(CoordLayout(), l).value],
                        Decoded(CoordLayout(), lines[1..], true));
    }
  }

  lemma LineStation(l: string)
    ensures WellFormed(CoordLayout())
    ensures AllStations(if Dropped(l, true) || DecodeLine(CoordLayout(), l).Err? then [] else [DecodeLine(CoordLayout(), l).value])
  {
    CoordDecodes(l);
    if CoordLine(l).Ok? {
      StationRecordOf(l);
    }
  }

  lemma AllStationsAppend(a: seq<Record>, b: seq<Record>)
    requires AllStations(a) && AllStations(b)
    ensures AllStations(a + b)
  {
    forall k | 0 <= k < |a + b|
      ensures StationRecord((a + b)[k])
    {
      if k >= |a| {
        assert (a + b)[k] == b[k - |a|];
      }
    }
  }

  /** The stations of decoded station records, in order. */
  function StationsOf(rs: seq<Record>): (ss: seq<Station>)
    requires AllStations(rs)
    ensures |ss| == |rs| && forall k :: 0 <= k < |rs| ==> ss[k] == AsStation(rs[k])
  {
    seq(|rs|, k requires 0 <= k < |rs| => AsStation(rs[k]))
  }

  /** The stations `readiter(..., skipBlanks=True, skipErrors=True)`
      yields from the lines, in order. */
  function Stations(lines: seq<string>): (ss: seq<Station>)
    ensures WellFormed(CoordLayout())
    ensures |ss| == |Decoded(CoordLayout(), lines, true)|
  {
    DecodedStations(lines);
    StationsOf(Decoded(CoordLayout(), lines, true))
  }
}
