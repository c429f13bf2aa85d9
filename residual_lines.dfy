/** The station-line layout of Residuals.py, `(I3,2X,2A18,A10,3(X,I2),14X,4I2,I4,I5)`,
    compiled and decoded in closed form. */
module ResidualLines {
  import opened Base
  import opened Text
  import opened FortranLayout
  import opened FortranDecode

  /** The thirteen values of a station line, under the names line 49 unpacks
      them into (`type` is `kind` here). */
  datatype StationFields = StationFields(
    num: int, st1: string, st2: string, obsdate: string,
    hour: int, min: int, sec: int, nf: int,
    f1: int, f2: int, f3: int, kind: int, period: int)

  // ---------------------------------------------------------------------
  // The layout

  /** The tokens of the layout as written: the four before the repeat
      group, the group's two, and the four after it. */
  function PreWritten(): seq<Written> {
    [Written("", 'I', "3", ""), Written("2", 'X', "", ""), Written("2", 'A', "18", ""), Written("", 'A', "10", "")]
  }

  function BodyWritten(): seq<Written> {
    [Written("", 'X', "", ""), Written("", 'I', "2", "")]
  }

  function PostWritten(): seq<Written> {
    [Written("14", 'X', "", ""), Written("4", 'I', "2", ""), Written("", 'I', "4", ""), Written("", 'I', "5", "")]
  }

  const PreTexts := ["I3", "2X", "2A18", "A10"]
  const BodyTexts := ["X", "I2"]
  const PostTexts := ["14X", "4I2", "I4", "I5"]

  /** The layout text of line 42, "(I3,2X,2A18,A10,3(X,I2),14X,4I2,I4,I5)",
      put together from its tokens. */
  const LayoutText := ("(" + Join(PreTexts, ",") + ",") + ("3" + "(" + Join(BodyTexts, ",") + ")") + ("," + Join(PostTexts, ",") + ")")

  /** The descriptors the layout compiles to: the group is written out
      three times, and A fields are not trimmed. */
  function PreFields(): seq<Descriptor> {
    [Descriptor(1, 3, Int), Descriptor(2, 1, Skip), Descriptor(2, 18, Str(false)), Descriptor(1, 10, Str(false))]
  }

  function BodyFields(): seq<Descriptor> {
    [Descriptor(1, 1, Skip), Descriptor(1, 2, Int)]
  }

  function PostFields(): seq<Descriptor> {
    [Descriptor(14, 1, Skip), Descriptor(4, 2, Int), Descriptor(1, 4, Int), Descriptor(1, 5, Int)]
  }

  function LayoutFields(): seq<Descriptor> {
    PreFields() + (BodyFields() + BodyFields() + BodyFields()) + PostFields()
  }

  /** The compiled form of `Format('(I3,2X,2A18,A10,3(X,I2),14X,4I2,I4,I5)')`:
      91 characters and 13 values, unnamed. */
  function Layout(): Compiled {
    Compiled(LayoutText, LayoutFields(), 91, 13, None)
  }

  /** The length and the value count are those of the cells. */
  lemma LayoutWellFormed()
    ensures WellFormed(Layout())
  {
    LayoutCellsAre();
    SlicesAre();
    CellsSpan(LayoutFields());
    CellsValueCount(LayoutFields());
  }

  /** A token as written, its text and its (untrimmed) descriptor. */
  predicate TokenReads(w: Written, text: string, d: Descriptor) {
    WellWritten(w) && Render(w) == text && DescriptorOf(TokenOf(w), false) == d
  }

  lemma PreFacts()
    ensures forall k :: 0 <= k < 4 ==> TokenReads(PreWritten()[k], PreTexts[k], PreFields()[k])
  {
    var ws, fs := PreWritten(), PreFields();
    assert "18"[..1] == "1" && "3"[..0] == [] && "2"[..0] == [] && "1"[..0] == [] && "10"[..1] == "1";
    assert Render(ws[0]) == [] + ['I'] + "3" + [] == "I3";
    assert Render(ws[1]) == "2" + ['X'] + [] + [] == "2X";
    assert Render(ws[2]) == "2" + ['A'] + "18" + [] == "2A18";
    assert Render(ws[3]) == [] + ['A'] + "10" + [] == "A10";
    assert TokenReads(ws[0], "I3", fs[0]) && TokenReads(ws[1], "2X", fs[1]);
    assert TokenReads(ws[2], "2A18", fs[2]) && TokenReads(ws[3], "A10", fs[3]);
  }

  lemma BodyFacts()
    ensures forall k :: 0 <= k < 2 ==> TokenReads(BodyWritten()[k], BodyTexts[k], BodyFields()[k])
  {
    var ws, fs := BodyWritten(), BodyFields();
    assert "2"[..0] == [];
    assert Render(ws[0]) == [] + ['X'] + [] + [] == "X";
    assert Render(ws[1]) == [] + ['I'] + "2" + [] == "I2";
    assert TokenReads(ws[0], "X", fs[0]) && TokenReads(ws[1], "I2", fs[1]);
  }

  lemma PostFacts()
    ensures forall k :: 0 <= k < 4 ==> TokenReads(PostWritten()[k], PostTexts[k], PostFields()[k])
  {
    var ws, fs := PostWritten(), PostFields();
    assert "14"[..1] == "1" && "1"[..0] == [] && "4"[..0] == [] && "2"[..0] == [] && "5"[..0] == [];
    assert Render(ws[0]) == "14" + ['X'] + [] + [] == "14X";
    assert Render(ws[1]) == "4" + ['I'] + "2" + [] == "4I2";
    assert Render(ws[2]) == [] + ['I'] + "4" + [] == "I4";
    assert Render(ws[3]) == [] + ['I'] + "5" + [] == "I5";
    assert TokenReads(ws[0], "14X", fs[0]) && TokenReads(ws[1], "4I2", fs[1]);
    assert TokenReads(ws[2], "I4", fs[2]) && TokenReads(ws[3], "I5", fs[3]);
  }

  /** The tokens once the group is written out three times. */
  lemma GroupWrittenOut()
    ensures AllDigits("3") && DigitsValue("3") == 3
    ensures GroupedTokens(PreWritten(), "3", BodyWritten(), PostWritten())
            == PreWritten() + (BodyWritten() + BodyWritten() + BodyWritten()) + PostWritten()
  {
    assert "3"[..0] == [];
    var b := BodyWritten();
    assert WrittenCopies(3, b) == b + (b + (b + []));
  }

  lemma LayoutDescriptors()
    ensures AllDigits("3")
    ensures Descriptors(TokensOf(GroupedTokens(PreWritten(), "3", BodyWritten(), PostWritten())), false) == LayoutFields()
  {
    GroupWrittenOut();
    PreFacts();
    BodyFacts();
    PostFacts();
    var pre, b, post := PreWritten(), BodyWritten(), PostWritten();
    DescriptorsAre(pre, false, PreFields());
    DescriptorsAre(b, false, BodyFields());
    DescriptorsAre(post, false, PostFields());
    DescriptorsJoin(b, b, false);
    DescriptorsJoin(b + b, b, false);
    DescriptorsJoin(pre, b + b + b, false);
    DescriptorsJoin(pre + (b + b + b), post, false);
  }

  /** `Format('(I3,2X,2A18,A10,3(X,I2),14X,4I2,I4,I5)')` compiles, the
      repeat group written out three times. */
  lemma LayoutCompiles()
    ensures Compile(LayoutText, None, false) == Ok(Layout())
  {
    var pre, b, post := PreWritten(), BodyWritten(), PostWritten();
    PreFacts();
    BodyFacts();
    PostFacts();
    RenderedAsJoin(pre, PreTexts);
    RenderedAsJoin(b, BodyTexts);
    RenderedAsJoin(post, PostTexts);
    GroupWrittenOut();
    assert GroupedParts(pre, "3", b, post);
    GroupedFields(pre, "3", b, post, false);
    assert GroupedText(pre, "3", b, post) == LayoutText;
    LayoutDescriptors();
    LayoutWellFormed();
  }

  // ---------------------------------------------------------------------
  // Decoding a station line

  /** The cells of a station line: the cells of the four tokens before
      the group, the group's two cells three times, and the cells of the
      four tokens after it. */
  function HeadCells(): seq<Cell> {
    [Cell(3, Int), Cell(1, Skip), Cell(1, Skip), Cell(18, Str(false)), Cell(18, Str(false)), Cell(10, Str(false))]
  }

  function BodyCells(): seq<Cell> {
    [Cell(1, Skip), Cell(2, Int)]
  }

  function TailCells(): seq<Cell> {
    Unfold(Descriptor(14, 1, Skip)) + [Cell(2, Int), Cell(2, Int), Cell(2, Int), Cell(2, Int), Cell(4, Int), Cell(5, Int)]
  }

  function LayoutCells(): seq<Cell> {
    HeadCells() + (BodyCells() + BodyCells() + BodyCells()) + TailCells()
  }

  lemma PreCells()
    ensures CellsOf(PreFields()) == HeadCells()
  {
    var f := PreFields();
    var k, s18 := Cell(1, Skip), Cell(18, Str(false));
    assert f[..1][..0] == [] && f[..2][..1] == f[..1] && f[..3][..2] == f[..2] && f[..4][..3] == f[..3] && f[..4] == f;
    assert CellsOf(f[..1]) == [Cell(3, Int)];
    assert Unfold(f[1]) == [k, k] && Unfold(f[2]) == [s18, s18] && Unfold(f[3]) == [Cell(10, Str(false))];
    assert CellsOf(f[..2]) == [Cell(3, Int), k, k];
    assert CellsOf(f[..3]) == [Cell(3, Int), k, k, s18, s18];
  }

  lemma BodyCellsAre()
    ensures CellsOf(BodyFields()) == BodyCells()
  {
    var f := BodyFields();
    assert f[..1][..0] == [] && f[..2][..1] == f[..1] && f[..2] == f;
    assert CellsOf(f[..1]) == [Cell(1, Skip)];
  }

  lemma PostCells()
    ensures CellsOf(PostFields()) == TailCells()
  {
    var f := PostFields();
    var i2 := Cell(2, Int);
    assert f[..1][..0] == [] && f[..2][..1] == f[..1] && f[..3][..2] == f[..2] && f[..4][..3] == f[..3] && f[..4] == f;
    var skips := Unfold(f[0]);
    assert CellsOf(f[..1]) == skips;
    assert Unfold(f[1]) == [i2, i2, i2, i2];
    assert Unfold(f[2]) == [Cell(4, Int)] && Unfold(f[3]) == [Cell(5, Int)];
    assert skips + [i2, i2, i2, i2] + [Cell(4, Int)] + [Cell(5, Int)] == TailCells();
  }

  lemma LayoutCellsAre()
    ensures CellsOf(LayoutFields()) == LayoutCells()
  {
    var pre, b, post := PreFields(), BodyFields(), PostFields();
    PreCells();
    BodyCellsAre();
    PostCells();
    CellsOfAppend(b, b);
    CellsOfAppend(b + b, b);
    CellsOfAppend(pre, b + b + b);
    CellsOfAppend(pre + (b + b + b), post);
  }

  /** The cells laid out as a station line's, index by index. */
  predicate CellsShaped(c: seq<Cell>) {
    var k, i2, s18 := Cell(1, Skip), Cell(2, Int), Cell(18, Str(false));
    && |c| == 32 && c[0] == Cell(3, Int) && c[1] == k && c[2] == k
    && c[3] == s18 && c[4] == s18 && c[5] == Cell(10, Str(false))
    && c[6] == k && c[7] == i2 && c[8] == k && c[9] == i2 && c[10] == k && c[11] == i2
    && (forall i :: 12 <= i < 26 ==> c[i] == k)
    && c[26] == i2 && c[27] == i2 && c[28] == i2 && c[29] == i2 && c[30] == Cell(4, Int) && c[31] == Cell(5, Int)
  }

  lemma LayoutCellsShaped()
    ensures CellsShaped(LayoutCells())
  {
    var h, b, t := HeadCells(), BodyCells(), TailCells();
    var c := LayoutCells();
    assert forall i :: 0 <= i < 6 ==> c[i] == h[i];
    assert forall i :: 0 <= i < 2 ==> c[6 + i] == b[i] && c[8 + i] == b[i] && c[10 + i] == b[i];
    assert forall i :: 12 <= i < 32 ==> c[i] == t[i - 12];
  }

  /** Where each value of a station line is read: columns 1-3, 6-23,
      24-41, 42-51, the three I2 of the group at 53, 56 and 59, then 75, 77,
      79, 81, and the I4 and I5 at 83 and 87. Every slice lies within the
      91 characters of the padded line, and is read by `int` or kept as
      text. */
  function StationSlices(): (ps: seq<Placed>)
    ensures |ps| == 13
    ensures forall k :: 0 <= k < 13 ==> ps[k].start + ps[k].cell.width <= 91
    ensures forall k :: 0 <= k < 13 ==> ps[k].cell.kind == Int || ps[k].cell.kind == Str(false)
  {
    var i2, s18 := Cell(2, Int), Cell(18, Str(false));
    [Placed(0, Cell(3, Int)), Placed(5, s18), Placed(23, s18), Placed(41, Cell(10, Str(false))),
     Placed(52, i2), Placed(55, i2), Placed(58, i2),
     Placed(74, i2), Placed(76, i2), Placed(78, i2), Placed(80, i2),
     Placed(82, Cell(4, Int)), Placed(86, Cell(5, Int))]
  }

  lemma SlicesFront(c: seq<Cell>)
    requires CellsShaped(c)
    ensures SpanTo(c, 6) == 51
    ensures SlicesTo(c, 6) == StationSlices()[..4]
  {
    var s18 := Cell(18, Str(false));
    assert SpanTo(c, 0) == 0 && SlicesTo(c, 0) == [];
    assert SpanTo(c, 1) == 3;
    assert SlicesTo(c, 1) == [Placed(0, Cell(3, Int))];
    SkipRun(c, 1, 3);
    assert SlicesTo(c, 4) == [Placed(0, Cell(3, Int)), Placed(5, s18)] && SpanTo(c, 4) == 23;
    assert SlicesTo(c, 5) == [Placed(0, Cell(3, Int)), Placed(5, s18), Placed(23, s18)] && SpanTo(c, 5) == 41;
  }

  lemma SlicesGroup(c: seq<Cell>)
    requires CellsShaped(c)
    ensures SpanTo(c, 12) == 60
    ensures SlicesTo(c, 12) == StationSlices()[..7]
  {
    var i2 := Cell(2, Int);
    var ps := StationSlices();
    SlicesFront(c);
    assert SpanTo(c, 7) == 52 && SlicesTo(c, 7) == ps[..4];
    assert SlicesTo(c, 8) == ps[..4] + [Placed(52, i2)] && SpanTo(c, 8) == 54;
    assert SpanTo(c, 9) == 55 && SlicesTo(c, 9) == ps[..4] + [Placed(52, i2)];
    assert SlicesTo(c, 10) == ps[..4] + [Placed(52, i2)] + [Placed(55, i2)] && SpanTo(c, 10) == 57;
    assert SpanTo(c, 11) == 58 && SlicesTo(c, 11) == SlicesTo(c, 10);
    assert SlicesTo(c, 12) == ps[..4] + [Placed(52, i2)] + [Placed(55, i2)] + [Placed(58, i2)];
    assert ps[..4] + [Placed(52, i2)] + [Placed(55, i2)] + [Placed(58, i2)] == ps[..7];
  }

  lemma SlicesBack(c: seq<Cell>)
    requires CellsShaped(c)
    ensures SpanTo(c, 32) == 91
    ensures SlicesTo(c, 32) == StationSlices()
  {
    var i2 := Cell(2, Int);
    var ps := StationSlices();
    SlicesGroup(c);
    SkipRun(c, 12, 26);
    assert SlicesTo(c, 27) == ps[..7] + [Placed(74, i2)] && SpanTo(c, 27) == 76;
    assert SlicesTo(c, 28) == ps[..7] + [Placed(74, i2)] + [Placed(76, i2)] && SpanTo(c, 28) == 78;
    var p28 := ps[..7] + [Placed(74, i2)] + [Placed(76, i2)];
    assert SlicesTo(c, 29) == p28 + [Placed(78, i2)] && SpanTo(c, 29) == 80;
    assert SlicesTo(c, 30) == p28 + [Placed(78, i2)] + [Placed(80, i2)] && SpanTo(c, 30) == 82;
    var p30 := p28 + [Placed(78, i2)] + [Placed(80, i2)];
    assert SlicesTo(c, 31) == p30 + [Placed(82, Cell(4, Int))] && SpanTo(c, 31) == 86;
    assert SlicesTo(c, 32) == p30 + [Placed(82, Cell(4, Int))] + [Placed(86, Cell(5, Int))];
    assert p30 + [Placed(82, Cell(4, Int))] + [Placed(86, Cell(5, Int))] == ps;
  }

  lemma SlicesAre()
    ensures Span(LayoutCells()) == 91
    ensures Slices(LayoutCells()) == StationSlices()
  {
    var c := LayoutCells();
    LayoutCellsShaped();
    SlicesBack(c);
    SlicesToIs(c, 32);
    SpanToIs(c, 32);
    assert c[..32] == c;
  }

  /** `fmt.read(l)`: the line, padded to 91 characters, decodes exactly
      when every one of the thirteen slices converts; each value is its
      slice's conversion, and a failure is that of the first slice that
      fails. */
  lemma StationDecodes(l: string)
    ensures WellFormed(Layout())
    ensures var line, ps, r := Pad(l, 91), StationSlices(), DecodeLine(Layout(), l);
      && (r.Ok? <==> forall k :: 0 <= k < 13 ==> SliceValue(line, ps[k]).Ok?)
      && (r.Ok? ==> r.value.names == None && |r.value.values| == 13
                    && forall k :: 0 <= k < 13 ==> SliceValue(line, ps[k]) == Ok(r.value.values[k]))
      && (r.Err? ==> exists k :: 0 <= k < 13 && SliceValue(line, ps[k]) == Err(r.error)
                                && forall j :: 0 <= j < k ==> SliceValue(line, ps[j]).Ok?)
  {
    LayoutWellFormed();
    LayoutCellsAre();
    SlicesAre();
    var line := Pad(l, 91);
    DecodeBySlices(LayoutCells(), line);
    var d := DecodeCells(LayoutCells(), line);
    assert DecodeLine(Layout(), l) == if d.Ok? then Ok(Record(None, d.value)) else Err(d.error);
    assert d.Ok? <==> forall k :: 0 <= k < 13 ==> SliceValue(line, StationSlices()[k]).Ok?;
  }

  /** A record with the value types of a station line: an integer, three
      strings and nine integers. */
  predicate StationRecord(r: Record) {
    && |r.values| == 13 && r.values[0].IntVal?
    && r.values[1].StrVal? && r.values[2].StrVal? && r.values[3].StrVal?
    && r.values[4].IntVal? && r.values[5].IntVal? && r.values[6].IntVal? && r.values[7].IntVal?
    && r.values[8].IntVal? && r.values[9].IntVal? && r.values[10].IntVal? && r.values[11].IntVal?
    && r.values[12].IntVal?
  }

  /** The named values of a decoded station line. */
  function AsFields(r: Record): StationFields
    requires StationRecord(r)
  {
    var v := r.values;
    StationFields(v[0].i, v[1].s, v[2].s, v[3].s, v[4].i, v[5].i, v[6].i, v[7].i, v[8].i, v[9].i, v[10].i, v[11].i, v[12].i)
  }

  /** The slice of `line` that placed cell `p` covers. */
  function SliceText(line: string, p: Placed): string
    requires p.start + p.cell.width <= |line|
  {
    line[p.start..p.start + p.cell.width]
  }

  /** A value read by `int` from its slice. */
  lemma IntRead(line: string, p: Placed, v: Value)
    requires p.start + p.cell.width <= |line| && p.cell.kind == Int && SliceValue(line, p) == Ok(v)
    ensures v.IntVal? && ParseInt(line[p.start..p.start + p.cell.width]) == Some(v.i)
  {
    ConvertValues(Int, line[p.start..p.start + p.cell.width]);
  }

  /** The thirteen values read from the slices of a padded line, in closed
      form: the integers are what `int` parses from their columns and the
      two station fields and the date are the untrimmed columns. */
  predicate ReadFrom(line: string, v: seq<Value>)
    requires |line| >= 91
  {
    |v| == 13 && ReadHead(line, v) && ReadClock(line, v) && ReadCounts(line, v)
  }

  predicate ReadHead(line: string, v: seq<Value>)
    requires |line| >= 91 && |v| == 13
  {
    && v[0].IntVal? && ParseInt(line[0..3]) == Some(v[0].i)
    && v[1] == StrVal(line[5..23]) && v[2] == StrVal(line[23..41]) && v[3] == StrVal(line[41..51])
  }

  predicate ReadClock(line: string, v: seq<Value>)
    requires |line| >= 91 && |v| == 13
  {
    && v[4].IntVal? && ParseInt(line[52..54]) == Some(v[4].i)
    && v[5].IntVal? && ParseInt(line[55..57]) == Some(v[5].i)
    && v[6].IntVal? && ParseInt(line[58..60]) == Some(v[6].i)
  }

  predicate ReadCounts(line: string, v: seq<Value>)
    requires |line| >= 91 && |v| == 13
  {
    && v[7].IntVal? && ParseInt(line[74..76]) == Some(v[7].i)
    && v[8].IntVal? && ParseInt(line[76..78]) == Some(v[8].i)
    && v[9].IntVal? && ParseInt(line[78..80]) == Some(v[9].i)
    && v[10].IntVal? && ParseInt(line[80..82]) == Some(v[10].i)
    && v[11].IntVal? && ParseInt(line[82..86]) == Some(v[11].i)
    && v[12].IntVal? && ParseInt(line[86..91]) == Some(v[12].i)
  }

  lemma SlicesReadHead(line: string, v: seq<Value>)
    requires |line| >= 91 && |v| == 13
    requires forall k :: 0 <= k < 13 ==> SliceValue(line, StationSlices()[k]) == Ok(v[k])
    ensures ReadHead(line, v)
  {
    var ps := StationSlices();
    var s18 := Cell(18, Str(false));
    assert SliceValue(line, ps[0]) == Ok(v[0]) && ps[0] == Placed(0, Cell(3, Int));
    IntRead(line, ps[0], v[0]);
    assert SliceValue(line, ps[1]) == Ok(v[1]) && ps[1] == Placed(5, s18);
    assert SliceValue(line, ps[2]) == Ok(v[2]) && ps[2] == Placed(23, s18);
    assert SliceValue(line, ps[3]) == Ok(v[3]) && ps[3] == Placed(41, Cell(10, Str(false)));
  }

  lemma SlicesReadClock(line: string, v: seq<Value>)
    requires |line| >= 91 && |v| == 13
    requires forall k :: 0 <= k < 13 ==> SliceValue(line, StationSlices()[k]) == Ok(v[k])
    ensures ReadClock(line, v)
  {
    var ps := StationSlices();
    var i2 := Cell(2, Int);
    assert SliceValue(line, ps[4]) == Ok(v[4]) && ps[4] == Placed(52, i2);
    IntRead(line, ps[4], v[4]);
    assert SliceValue(line, ps[5]) == Ok(v[5]) && ps[5] == Placed(55, i2);
    IntRead(line, ps[5], v[5]);
    assert SliceValue(line, ps[6]) == Ok(v[6]) && ps[6] == Placed(58, i2);
    IntRead(line, ps[6], v[6]);
  }

  lemma SlicesReadCounts(line: string, v: seq<Value>)
    requires |line| >= 91 && |v| == 13
    requires forall k :: 0 <= k < 13 ==> SliceValue(line, StationSlices()[k]) == Ok(v[k])
    ensures ReadCounts(line, v)
  {
    var ps := StationSlices();
    var i2 := Cell(2, Int);
    assert SliceValue(line, ps[7]) == Ok(v[7]) && ps[7] == Placed(74, i2);
    IntRead(line, ps[7], v[7]);
    assert SliceValue(line, ps[8]) == Ok(v[8]) && ps[8] == Placed(76, i2);
    IntRead(line, ps[8], v[8]);
    assert SliceValue(line, ps[9]) == Ok(v[9]) && ps[9] == Placed(78, i2);
    IntRead(line, ps[9], v[9]);
    assert SliceValue(line, ps[10]) == Ok(v[10]) && ps[10] == Placed(80, i2);
    IntRead(line, ps[10], v[10]);
    assert SliceValue(line, ps[11]) == Ok(v[11]) && ps[11] == Placed(82, Cell(4, Int));
    IntRead(line, ps[11], v[11]);
    assert SliceValue(line, ps[12]) == Ok(v[12]) && ps[12] == Placed(86, Cell(5, Int));
    IntRead(line, ps[12], v[12]);
  }

  /** Every decoded station line has the types above, and its values are
      the text of the line itself: the integers are what `int` parses from
      their columns and the three strings are the untrimmed columns. */
  lemma StationFieldsOf(l: string)
    ensures WellFormed(Layout())
    ensures DecodeLine(Layout(), l).Ok? ==> StationRecord(DecodeLine(Layout(), l).value)
    ensures DecodeLine(Layout(), l).Ok? ==> ReadFrom(Pad(l, 91), DecodeLine(Layout(), l).value.values)
  {
    StationDecodes(l);
    var r := DecodeLine(Layout(), l);
    if r.Ok? {
      var line, v := Pad(l, 91), r.value.values;
      SlicesReadHead(line, v);
      SlicesReadClock(line, v);
      SlicesReadCounts(line, v);
    }
  }

  /** Every decoded station line has the types above. */
  lemma StationTyped(l: string)
    ensures WellFormed(Layout())
    ensures DecodeLine(Layout(), l).Ok? ==> StationRecord(DecodeLine(Layout(), l).value)
  {
    StationFieldsOf(l);
  }

  /** The named fields of a decoded station line, in closed form. */
  lemma StationFieldsAre(l: string)
    ensures WellFormed(Layout())
    ensures DecodeLine(Layout(), l).Ok? ==> StationRecord(DecodeLine(Layout(), l).value)
    ensures DecodeLine(Layout(), l).Ok? ==>
      var line, f := Pad(l, 91), AsFields(DecodeLine(Layout(), l).value);
      && ParseInt(line[0..3]) == Some(f.num)
      && f.st1 == line[5..23] && f.st2 == line[23..41] && f.obsdate == line[41..51]
      && ParseInt(line[52..54]) == Some(f.hour) && ParseInt(line[55..57]) == Some(f.min)
      && ParseInt(line[58..60]) == Some(f.sec) && ParseInt(line[74..76]) == Some(f.nf)
      && ParseInt(line[76..78]) == Some(f.f1) && ParseInt(line[78..80]) == Some(f.f2)
      && ParseInt(line[80..82]) == Some(f.f3) && ParseInt(line[82..86]) == Some(f.kind)
      && ParseInt(line[86..91]) == Some(f.period)
  {
    StationFieldsOf(l);
  }

  /** A station line that fails to decode raises the `int` error of the
      first integer slice that does not parse. */
  lemma StationDecodeFails(l: string)
    ensures WellFormed(Layout())
    ensures var line, ps, r := Pad(l, 91), StationSlices(), DecodeLine(Layout(), l);
      r.Err? ==> exists k :: 0 <= k < 13 && ps[k].cell.kind == Int
                    && ParseInt(SliceText(line, ps[k])).None?
                    && r.error == BadInteger(SliceText(line, ps[k]))
                    && forall j :: 0 <= j < k ==> SliceValue(line, ps[j]).Ok?
  {
    StationDecodes(l);
    var line, ps, r := Pad(l, 91), StationSlices(), DecodeLine(Layout(), l);
    if r.Err? {
      var k :| 0 <= k < 13 && SliceValue(line, ps[k]) == Err(r.error)
               && forall j :: 0 <= j < k ==> SliceValue(line, ps[j]).Ok?;
      ConvertValues(ps[k].cell.kind, SliceText(line, ps[k]));
    }
  }
}
