/** Decoding with a compiled layout (`Format.read` and `Format.readiter` in
    Fortran.py): a line is padded when short, cut into consecutive slices
    of the descriptor widths, and each slice converted; a stream of lines
    is filtered and decoded in order. */
module FortranDecode {
  import opened Base
  import opened Text
  import opened FortranLayout

  // ---------------------------------------------------------------------
  // Conversions of one slice

  predicate IsSign(c: char) {
    c == '+' || c == '-'
  }

  /** The value of a non-empty run of ASCII digits; None when the run is
      empty or holds anything else. */
  function Natural(t: string): Option<int>
    decreases |t|
  {
    if t == [] || !IsDigit(t[|t| - 1]) then None
    else if |t| == 1 then Some(t[0] as int - '0' as int)
    else match Natural(t[..|t| - 1])
      case None => None
      case Some(n) => Some(n * 10 + (t[|t| - 1] as int - '0' as int))
  }

  /** Python 2 `int(s)` on a slice: surrounding whitespace, an optional
      sign directly followed by at least one ASCII digit; anything else
      raises ValueError. */
  function ParseInt(s: string): (r: Option<int>)
  {
    var t := Strip(s);
    if t != [] && IsSign(t[0]) then
      match Natural(t[1..])
      case None => None
      case Some(n) => Some(if t[0] == '-' then -n else n)
    else Natural(t)
  }

  lemma {:induction false} NaturalIs(t: string)
    ensures Natural(t).Some? <==> t != [] && AllDigits(t)
    ensures Natural(t).Some? ==> Natural(t).value == DigitsValue(t)
    decreases |t|
  {
    if t != [] && IsDigit(t[|t| - 1]) && |t| > 1 {
      NaturalIs(t[..|t| - 1]);
      assert t[..|t| - 1][..|t| - 2] == t[..|t| - 2];
    }
    if |t| == 1 {
      assert t[..0] == [];
    }
  }

  /** `int` succeeds exactly on a stripped text that is digits, or a sign
      followed by digits, and yields their value with the sign applied. */
  lemma ParseIntAccepts(s: string)
    ensures var t := Strip(s);
      ParseInt(s).Some? <==>
        t != [] && (if IsSign(t[0]) then |t| > 1 && AllDigits(t[1..]) else AllDigits(t))
    ensures var t := Strip(s);
      ParseInt(s).Some? ==>
        ParseInt(s).value == (if IsSign(t[0]) then (if t[0] == '-' then -1 else 1) * DigitsValue(t[1..]) else DigitsValue(t))
  {
    var t := Strip(s);
    NaturalIs(t);
    if t != [] {
      NaturalIs(t[1..]);
    }
  }

  function LowerChar(c: char): char {
    if 'A' <= c <= 'Z' then (c as int + 32) as char else c
  }

  /** `str.lower()`. */
  function Lower(s: string): (r: string)
  {
    if s == [] then [] else [LowerChar(s[0])] + Lower(s[1..])
  }

  /** The characters of b from i on complete a decimal of which the part
      before i has shown a digit (`digit`) and a point (`dot`). */
  predicate DecimalFrom(b: string, i: nat, digit: bool, dot: bool)
    requires i <= |b|
    decreases |b| - i
  {
    if i == |b| then digit
    else if IsDigit(b[i]) then DecimalFrom(b, i + 1, true, dot)
    else if b[i] == '.' && !dot then DecimalFrom(b, i + 1, digit, true)
    else digit && (b[i] == 'e' || b[i] == 'E') && ExponentFrom(b, i + 1)
  }

  /** An exponent's digits, after an optional sign. */
  predicate ExponentFrom(b: string, i: nat)
    requires i <= |b|
  {
    var k := if i < |b| && IsSign(b[i]) then i + 1 else i;
    k < |b| && AllDigits(b[k..])
  }

  /** Python 2 `float(t)` accepts t (already stripped): an optional sign
      followed by a decimal, or by inf, infinity or nan in any case. */
  predicate IsRealLiteral(t: string) {
    var b := if t != [] && IsSign(t[0]) then t[1..] else t;
    var w := Lower(b);
    w == "inf" || w == "infinity" || w == "nan" || DecimalFrom(b, 0, false, false)
  }

  /** The converter of a descriptor applied to one slice (lines 44-45 and
      50-53 of Fortran.py). */
  function Convert(kind: Kind, s: string): (r: Result<Value>)
    requires !kind.Skip?
    ensures r.Err? ==> r.error == (if kind == Int then BadInteger(s) else BadReal(s))
    ensures r.Ok? ==> OfKind(r.value, kind)
  {
    match kind
    case Int =>
      var n := ParseInt(s);
      if n.Some? then Ok(IntVal(n.value)) else Err(BadInteger(s))
    case Real =>
      var t := Replace(s, "D", "E");
      if IsRealLiteral(Strip(t)) then Ok(RealVal(t)) else Err(BadReal(s))
    case Str(trim) => Ok(StrVal(if trim then Strip(s) else s))
  }

  /** What each converter accepts and yields: `int` succeeds exactly on
      what Python 2 parses as an integer; the `F` converter succeeds
      exactly when the text, with every 'D' made an 'E', is a float
      literal, and keeps that text; `str` (stripped with `trim`) always
      succeeds. */
  lemma ConvertValues(kind: Kind, s: string)
    requires !kind.Skip?
    ensures kind == Int ==> (Convert(kind, s).Ok? <==> ParseInt(s).Some?)
    ensures kind == Int && Convert(kind, s).Ok? ==> Convert(kind, s).value == IntVal(ParseInt(s).value)
    ensures kind == Real ==> (Convert(kind, s).Ok? <==> IsRealLiteral(Strip(Replace(s, "D", "E"))))
    ensures kind == Real && Convert(kind, s).Ok? ==>
              Convert(kind, s).value.RealVal? && |Convert(kind, s).value.text| == |s|
    ensures kind == Real && Convert(kind, s).Ok? ==>
              forall i :: 0 <= i < |s| ==> Convert(kind, s).value.text[i] == if s[i] == 'D' then 'E' else s[i]
    ensures kind.Str? ==> Convert(kind, s) == Ok(StrVal(if kind.trim then Strip(s) else s))
  {
    ReplaceCharRemoves(s, 'D', 'E');
  }

  // ---------------------------------------------------------------------
  // Cells: the descriptors unfolded into one slice each

  /** One slice of a line: its width and converter. */
  datatype Cell = Cell(width: nat, kind: Kind)

  /** `count` copies of the descriptor's slice (the inner `for c in
      range(count)`). */
  function Unfold(d: Descriptor): (cs: seq<Cell>)
    ensures |cs| == d.count && forall k :: 0 <= k < |cs| ==> cs[k] == Cell(d.width, d.kind)
  {
    seq(d.count, _ => Cell(d.width, d.kind))
  }

  function CellsOf(fields: seq<Descriptor>): seq<Cell>
  {
    if fields == [] then []
    else CellsOf(fields[..|fields| - 1]) + Unfold(fields[|fields| - 1])
  }

  /** The characters the cells cover. */
  function Span(cells: seq<Cell>): nat
  {
    if cells == [] then 0 else Span(cells[..|cells| - 1]) + cells[|cells| - 1].width
  }

  lemma {:induction false} SpanAppend(a: seq<Cell>, b: seq<Cell>)
    ensures Span(a + b) == Span(a) + Span(b)
    decreases |b|
  {
    if b == [] {
      assert a + b == a;
    } else {
      assert (a + b)[..|a + b| - 1] == a + b[..|b| - 1];
      SpanAppend(a, b[..|b| - 1]);
    }
  }

  lemma {:induction false} SpanPrefix(cells: seq<Cell>, n: nat)
    requires n <= |cells|
    ensures Span(cells[..n]) <= Span(cells)
  {
    assert cells == cells[..n] + cells[n..];
    SpanAppend(cells[..n], cells[n..]);
  }

  lemma {:induction false} SpanUnfold(d: Descriptor, k: nat)
    requires k <= d.count
    ensures Span(Unfold(d)[..k]) == k * d.width
    decreases k
  {
    if k > 0 {
      assert Unfold(d)[..k][..k - 1] == Unfold(d)[..k - 1];
      SpanUnfold(d, k - 1);
    }
  }

  /** The cells span exactly the length `setFormat` computes. */
  lemma {:induction false} CellsSpan(fields: seq<Descriptor>)
    ensures Span(CellsOf(fields)) == Length(fields)
    decreases |fields|
  {
    if fields != [] {
      var d := fields[|fields| - 1];
      CellsSpan(fields[..|fields| - 1]);
      SpanAppend(CellsOf(fields[..|fields| - 1]), Unfold(d));
      SpanUnfold(d, d.count);
      assert Unfold(d)[..d.count] == Unfold(d);
    }
  }

  /** The number of cells that produce a value. */
  function ValueCells(cells: seq<Cell>): nat
  {
    if cells == [] then 0
    else ValueCells(cells[..|cells| - 1]) + (if cells[|cells| - 1].kind.Skip? then 0 else 1)
  }

  lemma {:induction false} ValueCellsAppend(a: seq<Cell>, b: seq<Cell>)
    ensures ValueCells(a + b) == ValueCells(a) + ValueCells(b)
    decreases |b|
  {
    if b == [] {
      assert a + b == a;
    } else {
      assert (a + b)[..|a + b| - 1] == a + b[..|b| - 1];
      ValueCellsAppend(a, b[..|b| - 1]);
    }
  }

  lemma {:induction false} ValueCellsUnfold(d: Descriptor, k: nat)
    requires k <= d.count
    ensures ValueCells(Unfold(d)[..k]) == if d.kind.Skip? then 0 else k
    decreases k
  {
    if k > 0 {
      assert Unfold(d)[..k][..k - 1] == Unfold(d)[..k - 1];
      ValueCellsUnfold(d, k - 1);
    }
  }

  /** The cells produce as many values as `setFormat` counts. */
  lemma {:induction false} CellsValueCount(fields: seq<Descriptor>)
    ensures ValueCells(CellsOf(fields)) == FieldCount(fields)
    decreases |fields|
  {
    if fields != [] {
      var d := fields[|fields| - 1];
      CellsValueCount(fields[..|fields| - 1]);
      ValueCellsAppend(CellsOf(fields[..|fields| - 1]), Unfold(d));
      ValueCellsUnfold(d, d.count);
      assert Unfold(d)[..d.count] == Unfold(d);
    }
  }

  /** The cells of two runs of descriptors, one after the other. */
  lemma {:induction false} CellsOfAppend(a: seq<Descriptor>, b: seq<Descriptor>)
    ensures CellsOf(a + b) == CellsOf(a) + CellsOf(b)
    decreases |b|
  {
    if b == [] {
      assert a + b == a;
    } else {
      var init := b[..|b| - 1];
      CellsOfAppend(a, init);
      assert (a + b)[..|a + b| - 1] == a + init;
    }
  }

  lemma {:induction false} CellsOfPrefix(fields: seq<Descriptor>, i: nat)
    requires i <= |fields|
    ensures |CellsOf(fields[..i])| <= |CellsOf(fields)|
    ensures CellsOf(fields[..i]) == CellsOf(fields)[..|CellsOf(fields[..i])|]
    decreases |fields| - i
  {
    if i < |fields| {
      var n := |fields|;
      assert fields[..n - 1][..i] == fields[..i];
      CellsOfPrefix(fields[..n - 1], i);
      var a := CellsOf(fields[..n - 1]);
      assert CellsOf(fields) == a + Unfold(fields[n - 1]);
      assert (a + Unfold(fields[n - 1]))[..|CellsOf(fields[..i])|] == a[..|CellsOf(fields[..i])|];
    } else {
      assert fields[..i] == fields;
    }
  }

  // ---------------------------------------------------------------------
  // Decoding a line

  /** A value-producing cell and the index where its slice starts. */
  datatype Placed = Placed(start: nat, cell: Cell)

  /** The conversion of one placed slice of `line`. */
  function SliceValue(line: string, p: Placed): Result<Value>
    requires p.start + p.cell.width <= |line| && !p.cell.kind.Skip?
  {
    Convert(p.cell.kind, line[p.start..p.start + p.cell.width])
  }

  /** The values of the cells read from `line`, converting slices left to
      right and stopping at the first conversion that raises. */
  function DecodeCells(cells: seq<Cell>, line: string): (r: Result<seq<Value>>)
    requires Span(cells) <= |line|
    ensures r.Ok? ==> |r.value| == ValueCells(cells)
  {
    if cells == [] then Ok([])
    else
      var init := cells[..|cells| - 1];
      var c := cells[|cells| - 1];
      match DecodeCells(init, line)
      case Err(e) => Err(e)
      case Ok(vs) =>
        if c.kind.Skip? then Ok(vs)
        else match SliceValue(line, Placed(Span(init), c))
          case Err(e) => Err(e)
          case Ok(v) => Ok(vs + [v])
  }

  /** One more cell after `cells`: skipped, or its slice converted and
      appended, unless an earlier conversion has already raised. */
  lemma DecodeSnoc(cells: seq<Cell>, c: Cell, line: string)
    requires Span(cells) + c.width <= |line|
    ensures Span(cells + [c]) == Span(cells) + c.width
    ensures DecodeCells(cells + [c], line)
         == match DecodeCells(cells, line)
            case Err(e) => Err(e)
            case Ok(vs) =>
              if c.kind.Skip? then Ok(vs)
              else match SliceValue(line, Placed(Span(cells), c))
                case Err(e) => Err(e)
                case Ok(v) => Ok(vs + [v])
  {
    var b := cells + [c];
    assert b[..|b| - 1] == cells && b[|b| - 1] == c;
  }

  /** The first k slices of an `X` descriptor read nothing and move the
      position on by k times the width. */
  lemma {:induction false} DecodeSkipped(cells: seq<Cell>, d: Descriptor, k: nat, line: string)
    requires d.kind.Skip? && k <= d.count && Span(cells) <= |line| && Span(cells) + k * d.width <= |line|
    ensures Span(cells + Unfold(d)[..k]) == Span(cells) + k * d.width
    ensures DecodeCells(cells + Unfold(d)[..k], line) == DecodeCells(cells, line)
    decreases k
  {
    if k == 0 {
      assert cells + Unfold(d)[..0] == cells;
    } else {
      var a := cells + Unfold(d)[..k - 1];
      assert cells + Unfold(d)[..k] == a + [Cell(d.width, d.kind)];
      assert (k - 1) * d.width + d.width == k * d.width;
      DecodeSkipped(cells, d, k - 1, line);
      DecodeSnoc(a, Cell(d.width, d.kind), line);
    }
  }

  /** One cell read from the start of the line. */
  lemma DecodeOne(a: Cell, line: string, u: Result<Value>)
    requires a.width <= |line| && !a.kind.Skip?
    requires u == SliceValue(line, Placed(0, a))
    ensures Span([a]) == a.width
    ensures DecodeCells([a], line) == if u.Ok? then Ok([u.value]) else Err(u.error)
  {
    var cells := [a];
    assert cells[..0] == [];
    assert cells[|cells| - 1] == a;
    assert DecodeCells(cells[..0], line) == Ok([]);
    if u.Ok? {
      assert [] + [u.value] == [u.value];
    }
  }

  /** Two cells read side by side. */
  lemma DecodePair(a: Cell, b: Cell, line: string, u: Result<Value>, v: Result<Value>)
    requires a.width + b.width <= |line| && !a.kind.Skip? && !b.kind.Skip?
    requires u == SliceValue(line, Placed(0, a)) && v == SliceValue(line, Placed(a.width, b))
    ensures Span([a, b]) == a.width + b.width
    ensures DecodeCells([a, b], line)
         == if u.Err? then Err(u.error) else if v.Err? then Err(v.error) else Ok([u.value, v.value])
  {
    var cells := [a, b];
    assert cells[..1] == [a];
    assert cells[|cells| - 1] == b;
    DecodeOne(a, line, u);
    if u.Ok? && v.Ok? {
      assert [u.value] + [v.value] == [u.value, v.value];
    }
  }

  /** Line 73-74 of Fortran.py: a line shorter than the layout gets
      `length` spaces appended. */
  function Pad(data: string, length: nat): (line: string)
    ensures |line| >= length && |line| >= |data| && line[..|data|] == data
    ensures |data| >= length ==> line == data
  {
    if |data| < length then data + Spaces(length) else data
  }

  /** `Format.read(data)` for a format in state `c`. */
  function DecodeLine(c: Compiled, data: string): (r: Result<Record>)
    requires WellFormed(c)
    ensures r.Ok? ==> r.value.names == c.names && |r.value.values| == c.fieldCount
  {
    var line := Pad(data, c.length);
    CellsSpan(c.fields);
    CellsValueCount(c.fields);
    match DecodeCells(CellsOf(c.fields), line)
    case Err(e) => Err(e)
    case Ok(vs) => Ok(Record(c.names, vs))
  }

  /** Once a conversion raises, later cells change nothing. */
  lemma {:induction false} DecodeErrPersists(cells: seq<Cell>, n: nat, line: string)
    requires n <= |cells| && Span(cells) <= |line| && Span(cells[..n]) <= |line|
    requires DecodeCells(cells[..n], line).Err?
    ensures DecodeCells(cells, line) == DecodeCells(cells[..n], line)
    decreases |cells| - n
  {
    if n < |cells| {
      var init := cells[..|cells| - 1];
      assert init[..n] == cells[..n];
      SpanPrefix(cells, |cells| - 1);
      DecodeErrPersists(init, n, line);
    } else {
      assert cells[..n] == cells;
    }
  }

  // ---------------------------------------------------------------------
  // The same decoding walked by index, as the loops of `read` walk it

  /** The characters the first n cells cover. */
  function SpanTo(cells: seq<Cell>, n: nat): nat
    requires n <= |cells|
  {
    if n == 0 then 0 else SpanTo(cells, n - 1) + cells[n - 1].width
  }

  /** The values of the first n cells, decoded left to right. */
  function DecodeTo(cells: seq<Cell>, n: nat, line: string): Result<seq<Value>>
    requires n <= |cells| && SpanTo(cells, n) <= |line|
  {
    if n == 0 then Ok([])
    else
      match DecodeTo(cells, n - 1, line)
      case Err(e) => Err(e)
      case Ok(vs) =>
        if cells[n - 1].kind.Skip? then Ok(vs)
        else match SliceValue(line, Placed(SpanTo(cells, n - 1), cells[n - 1]))
          case Err(e) => Err(e)
          case Ok(v) => Ok(vs + [v])
  }

  lemma {:induction false} SpanToIs(cells: seq<Cell>, n: nat)
    requires n <= |cells|
    ensures SpanTo(cells, n) == Span(cells[..n])
  {
    if n > 0 {
      SpanToIs(cells, n - 1);
      assert cells[..n][..n - 1] == cells[..n - 1];
    }
  }

  lemma {:induction false} SpanToMono(cells: seq<Cell>, n: nat, m: nat)
    requires n <= m <= |cells|
    ensures SpanTo(cells, n) <= SpanTo(cells, m)
    decreases m - n
  {
    if n < m {
      SpanToMono(cells, n, m - 1);
    }
  }

  /** Read by index or over the prefix, the decoding is the same. */
  lemma {:induction false} DecodeToIs(cells: seq<Cell>, n: nat, line: string)
    requires n <= |cells| && SpanTo(cells, n) <= |line|
    ensures Span(cells[..n]) <= |line| && DecodeTo(cells, n, line) == DecodeCells(cells[..n], line)
  {
    SpanToIs(cells, n);
    if n > 0 {
      SpanToMono(cells, n - 1, n);
      DecodeToIs(cells, n - 1, line);
      SpanToIs(cells, n - 1);
      assert cells[..n][..n - 1] == cells[..n - 1];
      assert cells[..n][n - 1] == cells[n - 1];
    }
  }

  /** Once a conversion raises, later cells change nothing. */
  lemma {:induction false} DecodeToStops(cells: seq<Cell>, n: nat, m: nat, line: string)
    requires n <= m <= |cells| && SpanTo(cells, m) <= |line|
    requires SpanTo(cells, n) <= |line| && DecodeTo(cells, n, line).Err?
    ensures DecodeTo(cells, m, line) == DecodeTo(cells, n, line)
    decreases m - n
  {
    if n < m {
      SpanToMono(cells, m - 1, m);
      DecodeToStops(cells, n, m - 1, line);
    }
  }

  /** Decoding reads only the characters the cells span. */
  lemma {:induction false} DecodeReadsSpan(cells: seq<Cell>, a: string, b: string)
    requires Span(cells) <= |a| && Span(cells) <= |b| && a[..Span(cells)] == b[..Span(cells)]
    ensures DecodeCells(cells, a) == DecodeCells(cells, b)
    decreases |cells|
  {
    if cells != [] {
      var init := cells[..|cells| - 1];
      var c := cells[|cells| - 1];
      assert a[..Span(init)] == a[..Span(cells)][..Span(init)];
      assert b[..Span(init)] == b[..Span(cells)][..Span(init)];
      DecodeReadsSpan(init, a, b);
      if !c.kind.Skip? {
        var p := Placed(Span(init), c);
        assert a[Span(init)..Span(init) + c.width] == a[..Span(cells)][Span(init)..Span(init) + c.width];
        assert b[Span(init)..Span(init) + c.width] == b[..Span(cells)][Span(init)..Span(init) + c.width];
        assert SliceValue(a, p) == SliceValue(b, p);
      }
    }
  }

  /** Padding with `length` spaces gives the same values as padding to
      exactly the layout length, or as any other run of spaces that long. */
  lemma PadIrrelevant(c: Compiled, data: string, extra: nat)
    requires WellFormed(c) && |data| + extra >= c.length
    ensures DecodeLine(c, data) == DecodeLine(c, data + Spaces(extra))
  {
    CellsSpan(c.fields);
    var cells := CellsOf(c.fields);
    var a := Pad(data, c.length);
    var b := Pad(data + Spaces(extra), c.length);
    assert a[..c.length] == b[..c.length] by {
      forall k | 0 <= k < c.length
        ensures a[k] == b[k]
      {
        if k < |data| {
          assert a[..|data|][k] == a[k];
          assert (data + Spaces(extra))[k] == data[k];
          assert b[..|data + Spaces(extra)|][k] == b[k];
        } else {
          assert a[k] == ' ';
          assert (data + Spaces(extra))[k] == ' ';
          assert b[..|data + Spaces(extra)|][k] == b[k];
        }
      }
    }
    DecodeReadsSpan(cells, a, b);
  }

  // ---------------------------------------------------------------------
  // The slices a line is cut into

  /** The value-producing cells in order, each placed just after all the
      cells before it (the running `pos` of `read`). */
  function Slices(cells: seq<Cell>): (ps: seq<Placed>)
    ensures |ps| == ValueCells(cells)
    ensures forall k :: 0 <= k < |ps| ==> ps[k].start + ps[k].cell.width <= Span(cells) && !ps[k].cell.kind.Skip?
  {
    if cells == [] then []
    else
      var init := cells[..|cells| - 1];
      var c := cells[|cells| - 1];
      Slices(init) + (if c.kind.Skip? then [] else [Placed(Span(init), c)])
  }

  /** Decoding is slicing: the values are the conversions of the slices in
      order, and decoding fails exactly when a slice fails to convert, with
      the error of the first such slice. */
  lemma {:induction false} DecodeBySlices(cells: seq<Cell>, line: string)
    requires Span(cells) <= |line|
    ensures var ps := Slices(cells);
      DecodeCells(cells, line).Ok? <==> forall k :: 0 <= k < |ps| ==> SliceValue(line, ps[k]).Ok?
    ensures var ps := Slices(cells);
      DecodeCells(cells, line).Ok? ==>
        forall k :: 0 <= k < |ps| ==> SliceValue(line, ps[k]) == Ok(DecodeCells(cells, line).value[k])
    ensures var ps := Slices(cells);
      DecodeCells(cells, line).Err? ==>
        exists k :: 0 <= k < |ps| && SliceValue(line, ps[k]) == Err(DecodeCells(cells, line).error)
                    && forall j :: 0 <= j < k ==> SliceValue(line, ps[j]).Ok?
    decreases |cells|
  {
    if cells != [] {
      var init := cells[..|cells| - 1];
      var c := cells[|cells| - 1];
      DecodeBySlices(init, line);
      var ps0 := Slices(init);
      var ps := Slices(cells);
      assert ps == ps0 + (if c.kind.Skip? then [] else [Placed(Span(init), c)]);
      assert forall k :: 0 <= k < |ps0| ==> ps[k] == ps0[k];
      match DecodeCells(init, line)
      case Err(e) =>
        assert DecodeCells(cells, line) == Err(e);
        var k :| 0 <= k < |ps0| && SliceValue(line, ps0[k]) == Err(e)
                 && forall j :: 0 <= j < k ==> SliceValue(line, ps0[j]).Ok?;
        assert SliceValue(line, ps[k]) == Err(e);
      case Ok(vs) =>
        if c.kind.Skip? {
          assert ps == ps0;
          assert DecodeCells(cells, line) == Ok(vs);
        } else {
          var p := Placed(Span(init), c);
          assert ps[|ps0|] == p;
          match SliceValue(line, p)
          case Err(e) =>
            assert DecodeCells(cells, line) == Err(e);
          case Ok(v) =>
            assert DecodeCells(cells, line) == Ok(vs + [v]);
        }
    }
  }

  /** `Slices` read by index: the value-producing cells among the first n,
      each placed where the running position has reached. */
  function SlicesTo(cells: seq<Cell>, n: nat): seq<Placed>
    requires n <= |cells|
  {
    if n == 0 then []
    else SlicesTo(cells, n - 1) + (if cells[n - 1].kind.Skip? then [] else [Placed(SpanTo(cells, n - 1), cells[n - 1])])
  }

  lemma {:induction false} SlicesToIs(cells: seq<Cell>, n: nat)
    requires n <= |cells|
    ensures SlicesTo(cells, n) == Slices(cells[..n])
  {
    if n > 0 {
      SlicesToIs(cells, n - 1);
      SpanToIs(cells, n - 1);
      assert cells[..n][..n - 1] == cells[..n - 1];
      assert cells[..n][n - 1] == cells[n - 1];
    }
  }

  /** A run of one-character skips moves the position on and places no
      slice. */
  lemma {:induction false} SkipRun(cells: seq<Cell>, n: nat, m: nat)
    requires n <= m <= |cells| && forall i :: n <= i < m ==> cells[i] == Cell(1, Skip)
    ensures SpanTo(cells, m) == SpanTo(cells, n) + (m - n) && SlicesTo(cells, m) == SlicesTo(cells, n)
    decreases m - n
  {
    if n < m {
      SkipRun(cells, n, m - 1);
    }
  }

  predicate Textual(k: Kind) {
    k.Skip? || k.Str?
  }

  /** Layouts of X, A and H descriptors only: string conversion cannot
      raise, so every line decodes. */
  lemma {:induction false} DecodeTextualCells(cells: seq<Cell>, line: string)
    requires Span(cells) <= |line| && forall k :: 0 <= k < |cells| ==> Textual(cells[k].kind)
    ensures DecodeCells(cells, line).Ok?
    decreases |cells|
  {
    if cells != [] {
      DecodeTextualCells(cells[..|cells| - 1], line);
    }
  }

  lemma {:induction false} CellsOfTextual(fields: seq<Descriptor>)
    requires forall k :: 0 <= k < |fields| ==> Textual(fields[k].kind)
    ensures forall k :: 0 <= k < |CellsOf(fields)| ==> Textual(CellsOf(fields)[k].kind)
    decreases |fields|
  {
    if fields != [] {
      CellsOfTextual(fields[..|fields| - 1]);
    }
  }

  lemma DecodeTextual(c: Compiled, data: string)
    requires WellFormed(c) && forall k :: 0 <= k < |c.fields| ==> Textual(c.fields[k].kind)
    ensures DecodeLine(c, data).Ok?
  {
    CellsSpan(c.fields);
    CellsOfTextual(c.fields);
    DecodeTextualCells(CellsOf(c.fields), Pad(data, c.length));
  }

  // ---------------------------------------------------------------------
  // The type of each value

  /** The converters of the cells that produce values, in order. */
  function ValueKinds(cells: seq<Cell>): (ks: seq<Kind>)
    ensures forall i :: 0 <= i < |ks| ==> !ks[i].Skip?
  {
    if cells == [] then []
    else
      var c := cells[|cells| - 1];
      ValueKinds(cells[..|cells| - 1]) + (if c.kind.Skip? then [] else [c.kind])
  }

  /** The converters of a compiled layout, one per value. */
  function Kinds(c: Compiled): seq<Kind> {
    ValueKinds(CellsOf(c.fields))
  }

  /** A value of the type its converter returns. */
  predicate OfKind(v: Value, k: Kind) {
    match k
    case Int => v.IntVal?
    case Real => v.RealVal?
    case Str(_) => v.StrVal?
    case Skip => false
  }

  predicate Typed(vs: seq<Value>, ks: seq<Kind>) {
    |vs| == |ks| && forall i :: 0 <= i < |vs| ==> OfKind(vs[i], ks[i])
  }

  /** Each decoded value has the type of its cell's converter. */
  lemma {:induction false} DecodeCellsTyped(cells: seq<Cell>, line: string)
    requires Span(cells) <= |line|
    ensures DecodeCells(cells, line).Ok? ==> Typed(DecodeCells(cells, line).value, ValueKinds(cells))
    decreases |cells|
  {
    if cells != [] {
      var init := cells[..|cells| - 1];
      var c := cells[|cells| - 1];
      DecodeCellsTyped(init, line);
      if DecodeCells(cells, line).Ok? && !c.kind.Skip? {
        var v := SliceValue(line, Placed(Span(init), c));
        assert v.Ok? && OfKind(v.value, c.kind);
      }
    }
  }

  lemma DecodeLineTyped(c: Compiled, data: string)
    requires WellFormed(c)
    ensures DecodeLine(c, data).Ok? ==> Typed(DecodeLine(c, data).value.values, Kinds(c))
  {
    CellsSpan(c.fields);
    DecodeCellsTyped(CellsOf(c.fields), Pad(data, c.length));
  }

  /** Every record a stream yields has the layout's value types. */
  lemma {:induction false} IterateTyped(c: Compiled, lines: seq<string>, skipErrors: bool, skipBlanks: bool)
    requires WellFormed(c)
    ensures AllTyped(Iterate(c, lines, skipErrors, skipBlanks).records, Kinds(c))
    decreases |lines|
  {
    if lines != [] {
      var l := lines[|lines| - 1];
      var prev := Iterate(c, lines[..|lines| - 1], skipErrors, skipBlanks);
      IterateTyped(c, lines[..|lines| - 1], skipErrors, skipBlanks);
      var out := DecodeLine(c, l);
      assert Iterate(c, lines, skipErrors, skipBlanks) == Step(prev, Dropped(l, skipBlanks), out, skipErrors);
      if prev.failure.None? && !Dropped(l, skipBlanks) && out.Ok? {
        DecodeLineTyped(c, l);
        AllTypedSnoc(prev.records, out.value, Kinds(c));
      }
    }
  }

  predicate AllTyped(records: seq<Record>, ks: seq<Kind>) {
    forall k :: 0 <= k < |records| ==> Typed(records[k].values, ks)
  }

  lemma AllTypedSnoc(records: seq<Record>, r: Record, ks: seq<Kind>)
    requires AllTyped(records, ks) && Typed(r.values, ks)
    ensures AllTyped(records + [r], ks)
  {
  }

  // ---------------------------------------------------------------------
  // Streams of lines

  /** What a consumer of `readiter` sees: the records yielded, then the
      exception that ended the iteration, if any. */
  datatype Stream = Stream(records: seq<Record>, failure: Option<Error>)

  /** `l.strip() == ''`. */
  predicate Blank(l: string) {
    Strip(l) == []
  }

  /** Whether `readiter` drops a line before decoding it. */
  predicate Dropped(l: string, skipBlanks: bool) {
    skipBlanks && Blank(l)
  }

  /** One turn of the `readiter` loop: a line that is dropped, or comes
      after a failure, changes nothing; otherwise its decoding outcome is
      yielded, skipped or raised. */
  function Step(prev: Stream, dropped: bool, outcome: Result<Record>, skipErrors: bool): Stream {
    if prev.failure.Some? || dropped then prev
    else match outcome
      case Ok(r) => Stream(prev.records + [r], None)
      case Err(e) => if skipErrors then prev else Stream(prev.records, Some(e))
  }

  /** `readiter(lines, skipErrors, skipBlanks)` run to its end. */
  function Iterate(c: Compiled, lines: seq<string>, skipErrors: bool, skipBlanks: bool): (st: Stream)
    requires WellFormed(c)
    ensures skipErrors ==> st.failure.None?
    ensures forall k :: 0 <= k < |st.records| ==>
              st.records[k].names == c.names && |st.records[k].values| == c.fieldCount
  {
    if lines == [] then Stream([], None)
    else
      var l := lines[|lines| - 1];
      Step(Iterate(c, lines[..|lines| - 1], skipErrors, skipBlanks), Dropped(l, skipBlanks), DecodeLine(c, l), skipErrors)
  }

  /** One more line of the stream. */
  lemma IterateNext(c: Compiled, lines: seq<string>, i: nat, skipErrors: bool, skipBlanks: bool)
    requires WellFormed(c) && i < |lines|
    ensures Iterate(c, lines[..i + 1], skipErrors, skipBlanks)
         == Step(Iterate(c, lines[..i], skipErrors, skipBlanks), Dropped(lines[i], skipBlanks), DecodeLine(c, lines[i]), skipErrors)
  {
    assert lines[..i + 1][..i] == lines[..i];
  }

  /** The records of the lines that are neither dropped nor fail to decode,
      in the order of the lines. */
  function Decoded(c: Compiled, lines: seq<string>, skipBlanks: bool): seq<Record>
    requires WellFormed(c)
    decreases |lines|
  {
    if lines == [] then []
    else
      (if Dropped(lines[0], skipBlanks) || DecodeLine(c, lines[0]).Err? then []
       else [DecodeLine(c, lines[0]).value])
      + Decoded(c, lines[1..], skipBlanks)
  }

  lemma {:induction false} DecodedSnoc(c: Compiled, lines: seq<string>, l: string, skipBlanks: bool)
    requires WellFormed(c)
    ensures Decoded(c, lines + [l], skipBlanks)
         == Decoded(c, lines, skipBlanks)
            + (if Dropped(l, skipBlanks) || DecodeLine(c, l).Err? then [] else [DecodeLine(c, l).value])
    decreases |lines|
  {
    if lines == [] {
      assert [l][1..] == [];
    } else {
      assert (lines + [l])[1..] == lines[1..] + [l];
      DecodedSnoc(c, lines[1..], l, skipBlanks);
    }
  }

  /** A line that ends the iteration: kept, and failing to decode. */
  predicate Fails(c: Compiled, l: string, skipBlanks: bool)
    requires WellFormed(c)
  {
    !Dropped(l, skipBlanks) && DecodeLine(c, l).Err?
  }

  /** With `skipErrors` the iteration yields exactly the decodable kept
      lines, in order. */
  lemma {:induction false} IterateSkipping(c: Compiled, lines: seq<string>, skipBlanks: bool)
    requires WellFormed(c)
    ensures Iterate(c, lines, true, skipBlanks) == Stream(Decoded(c, lines, skipBlanks), None)
    decreases |lines|
  {
    if lines != [] {
      var init := lines[..|lines| - 1];
      IterateSkipping(c, init, skipBlanks);
      assert lines == init + [lines[|lines| - 1]];
      DecodedSnoc(c, init, lines[|lines| - 1], skipBlanks);
    }
  }

  /** The index of the first line that fails, or the number of lines when
      none does. */
  function FirstFailure(c: Compiled, lines: seq<string>, skipBlanks: bool): (k: nat)
    requires WellFormed(c)
    ensures k <= |lines| && (k < |lines| ==> Fails(c, lines[k], skipBlanks))
    ensures forall j :: 0 <= j < k ==> !Fails(c, lines[j], skipBlanks)
    decreases |lines|
  {
    if lines == [] then 0
    else if Fails(c, lines[0], skipBlanks) then 0
    else 1 + FirstFailure(c, lines[1..], skipBlanks)
  }

  /** The first failing line is the one before which no line fails. */
  lemma {:induction false} FirstFailureIs(c: Compiled, lines: seq<string>, skipBlanks: bool, k: nat)
    requires WellFormed(c) && k <= |lines| && (k < |lines| ==> Fails(c, lines[k], skipBlanks))
    requires forall j :: 0 <= j < k ==> !Fails(c, lines[j], skipBlanks)
    ensures FirstFailure(c, lines, skipBlanks) == k
    decreases k
  {
    if k > 0 {
      FirstFailureIs(c, lines[1..], skipBlanks, k - 1);
    }
  }

  lemma {:induction false} FirstFailureSnoc(c: Compiled, lines: seq<string>, l: string, skipBlanks: bool)
    requires WellFormed(c)
    ensures var k := FirstFailure(c, lines, skipBlanks);
      FirstFailure(c, lines + [l], skipBlanks)
        == if k < |lines| || Fails(c, l, skipBlanks) then k else |lines| + 1
    decreases |lines|
  {
    if lines == [] {
      assert [l][1..] == [];
    } else {
      assert (lines + [l])[0] == lines[0];
      assert (lines + [l])[1..] == lines[1..] + [l];
      FirstFailureSnoc(c, lines[1..], l, skipBlanks);
    }
  }

  /** Without `skipErrors` the iteration stops at the first kept line that
      fails to decode, raising its error after yielding the records of the
      lines before it; when no line fails it yields them all. */
  lemma {:induction false} IterateStrict(c: Compiled, lines: seq<string>, skipBlanks: bool)
    requires WellFormed(c)
    ensures var k := FirstFailure(c, lines, skipBlanks);
      Iterate(c, lines, false, skipBlanks)
        == if k == |lines| then Stream(Decoded(c, lines, skipBlanks), None)
           else Stream(Decoded(c, lines[..k], skipBlanks), Some(DecodeLine(c, lines[k]).error))
    decreases |lines|
  {
    if lines != [] {
      var init := lines[..|lines| - 1];
      var l := lines[|lines| - 1];
      assert lines == init + [l];
      IterateStrict(c, init, skipBlanks);
      FirstFailureSnoc(c, init, l, skipBlanks);
      var k0 := FirstFailure(c, init, skipBlanks);
      var prev := Iterate(c, init, false, skipBlanks);
      assert Iterate(c, lines, false, skipBlanks) == Step(prev, Dropped(l, skipBlanks), DecodeLine(c, l), false);
      if k0 < |init| {
        assert init[..k0] == lines[..k0];
        assert init[k0] == lines[k0];
      } else if Fails(c, l, skipBlanks) {
        assert init == lines[..|init|];
      } else {
        DecodedSnoc(c, init, l, skipBlanks);
      }
    }
  }

  /** Once an error is raised, later lines are never read. */
  lemma {:induction false} IterateStops(c: Compiled, lines: seq<string>, k: nat, skipErrors: bool, skipBlanks: bool)
    requires WellFormed(c) && k <= |lines|
    requires Iterate(c, lines[..k], skipErrors, skipBlanks).failure.Some?
    ensures Iterate(c, lines, skipErrors, skipBlanks) == Iterate(c, lines[..k], skipErrors, skipBlanks)
    decreases |lines| - k
  {
    if k < |lines| {
      var init := lines[..|lines| - 1];
      assert init[..k] == lines[..k];
      IterateStops(c, init, k, skipErrors, skipBlanks);
    } else {
      assert lines[..k] == lines;
    }
  }

  /** The lines `readiter` keeps when it skips blanks. */
  function NonBlank(lines: seq<string>): (kept: seq<string>)
    ensures forall k :: 0 <= k < |kept| ==> !Blank(kept[k])
  {
    if lines == [] then []
    else NonBlank(lines[..|lines| - 1]) + (if Blank(lines[|lines| - 1]) then [] else [lines[|lines| - 1]])
  }

  /** Skipping blanks is iterating over the non-blank lines alone. */
  lemma {:induction false} IterateNonBlank(c: Compiled, lines: seq<string>, skipErrors: bool)
    requires WellFormed(c)
    ensures Iterate(c, lines, skipErrors, true) == Iterate(c, NonBlank(lines), skipErrors, false)
    decreases |lines|
  {
    if lines != [] {
      var init := lines[..|lines| - 1];
      var l := lines[|lines| - 1];
      IterateNonBlank(c, init, skipErrors);
      var prev := Iterate(c, init, skipErrors, true);
      assert Iterate(c, lines, skipErrors, true) == Step(prev, Blank(l), DecodeLine(c, l), skipErrors);
      if !Blank(l) {
        var kept := NonBlank(init) + [l];
        assert kept[..|kept| - 1] == NonBlank(init);
        assert NonBlank(lines) == kept;
        assert Iterate(c, kept, skipErrors, false) == Step(prev, false, DecodeLine(c, l), skipErrors);
      } else {
        assert NonBlank(lines) == NonBlank(init);
      }
    }
  }
}
