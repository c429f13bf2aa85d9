/** The `Format` class of Fortran.py: an object holding a compiled layout,
    which `setFormat` recompiles in place and `read`, `readiter` and
    `readfile` use to decode lines. Each method is proved against the
    functions of `FortranLayout` and `FortranDecode`. */
module Fortran {
  import opened Base
  import opened Text
  import opened FortranLayout
  import opened FortranDecode

  class Format {
    var spec: string                 // _format
    var fields: seq<Descriptor>      // _fields
    var length: nat                  // _length
    var fieldCount: nat              // _fieldcount
    var names: Option<seq<string>>   // _rectype: named tuple over these names, or tuple

    /** The object's state as a value. */
    function State(): Compiled
      reads this
    {
      Compiled(spec, fields, length, fieldCount, names)
    }

    ghost predicate Valid()
      reads this
    {
      WellFormed(State())
    }

    /** An object before `setFormat` has run on it. */
    constructor Empty()
      ensures State() == Compiled([], [], 0, 0, None) && Valid()
    {
      spec, fields, length, fieldCount, names := [], [], 0, 0, None;
    }

    /** `Format(format, names, trim)`: the constructor runs `setFormat`, so
        it either returns an object in the compiled state or raises. */
    static method New(format: string, names: Option<string>, trim: bool) returns (r: Result<Format>)
      ensures r.Ok? <==> Compile(format, names, trim).Ok?
      ensures r.Ok? ==> fresh(r.value) && r.value.Valid() && r.value.State() == Compile(format, names, trim).value
      ensures r.Err? ==> r.error == Compile(format, names, trim).error
    {
      var f := new Format.Empty();
      var err := f.SetFormat(format, names, trim);
      if !ValidStart(Expanded(format)) {
        CompileInvalid(format, names, trim);
      } else if HasNames(names) && |Split(names.value)| != FieldCount(FieldsOf(format, trim)) {
        CompileMismatch(format, names, trim);
      } else {
        CompileValid(format, names, trim);
      }
      if err.Some? {
        return Err(err.value);
      }
      return Ok(f);
    }

    /** `setFormat`: compiles the layout into this object. On an invalid
        layout it has already cleared `_fields` and set `_format`; on a
        name-count mismatch it has also stored the new fields, length and
        count, but keeps the old record type. */
    method SetFormat(format: string, names: Option<string>, trim: bool) returns (err: Option<Error>)
      modifies this
      ensures spec == Upper(format)
      ensures !ValidStart(Expanded(format)) ==>
        err == Some(InvalidFormat(Upper(format))) && fields == [] && length == old(length)
        && fieldCount == old(fieldCount) && this.names == old(this.names)
      ensures ValidStart(Expanded(format)) ==>
        fields == FieldsOf(format, trim) && length == Length(fields) && fieldCount == FieldCount(fields)
      ensures ValidStart(Expanded(format)) && HasNames(names) && |Split(names.value)| != fieldCount ==>
        err == Some(FieldNameCount(names.value, Upper(format))) && this.names == old(this.names)
      ensures ValidStart(Expanded(format)) && !(HasNames(names) && |Split(names.value)| != fieldCount) ==>
        err == None && this.names == (if HasNames(names) then Some(Split(names.value)) else None)
      ensures err == None ==> Valid()
    {
      var f := ExpandGroups(Upper(format));
      assert f == Expanded(format);
      if !ValidStart(f) {
        spec, fields := Upper(format), [];
        return Some(InvalidFormat(spec));
      }
      var fs := Extract(f, trim);
      var len, count := Totals(fs);
      spec, fields, length, fieldCount := Upper(format), fs, len, count;
      if HasNames(names) {
        var fieldnames := Split(names.value);
        if |fieldnames| != count {
          return Some(FieldNameCount(names.value, spec));
        }
        this.names := Some(fieldnames);
      } else {
        this.names := None;
      }
      return None;
    }

    /** `read(data)`: pads a short line, then cuts consecutive slices,
        converting each one that is not skipped; the first conversion that
        raises ends the read. */
    method Read(data: string) returns (r: Result<Record>)
      requires Valid()
      ensures r == DecodeLine(State(), data)
      ensures r.Ok? ==> r.value.names == names && |r.value.values| == fieldCount
    {
      var line := data;
      if |line| < length {
        line := line + Spaces(length);
      }
      assert line == Pad(data, length);
      CellsSpan(fields);
      ConverterConverts();
      var values := ReadFields(fields, line, Converter);
      ReadDecodes(fields, line);
      if values.Err? {
        return Err(values.error);
      }
      return Ok(Record(names, values.value));
    }

    /** `readiter(stream, skipErrors, skipBlanks)` consumed to its end: the
        records it yields, and the exception that ended it, if any. */
    method ReadIter(lines: seq<string>, skipErrors: bool, skipBlanks: bool) returns (records: seq<Record>, failure: Option<Error>)
      requires Valid()
      ensures Stream(records, failure) == Iterate(State(), lines, skipErrors, skipBlanks)
    {
      records, failure := [], None;
      var i := 0;
      while i < |lines|
        invariant 0 <= i <= |lines|
        invariant Stream(records, None) == Iterate(State(), lines[..i], skipErrors, skipBlanks)
      {
        var l := lines[i];
        IterateNext(State(), lines, i, skipErrors, skipBlanks);
        if skipBlanks && Strip(l) == [] {
          i := i + 1;
          continue;
        }
        var r := Read(l);
        if r.Ok? {
          records := records + [r.value];
        } else if !skipErrors {
          failure := Some(r.error);
          IterateStops(State(), lines, i + 1, skipErrors, skipBlanks);
          return;
        }
        i := i + 1;
      }
      assert lines[..i] == lines;
    }

    /** `readfile(filename, skipErrors, skipLines, skipBlanks)` consumed to
        its end: a missing file raises when the iteration starts; otherwise
        `skipLines` lines are read and discarded before the rest is
        iterated. */
    method ReadFile(fs: FileSystem, filename: string, skipErrors: bool, skipLines: nat, skipBlanks: bool)
      returns (records: seq<Record>, failure: Option<Error>)
      requires Valid()
      ensures filename !in fs ==> records == [] && failure == Some(FileNotFound(filename))
      ensures filename in fs ==>
        Stream(records, failure) == Iterate(State(), Drop(fs[filename], skipLines), skipErrors, skipBlanks)
    {
      if filename !in fs {
        return [], Some(FileNotFound(filename));
      }
      var rest := fs[filename];
      for k := 0 to skipLines
        invariant rest == Drop(fs[filename], k)
      {
        if rest != [] {
          rest := rest[1..];
        }
      }
      records, failure := ReadIter(rest, skipErrors, skipBlanks);
    }
  }

  /** Lines 26-30 of Fortran.py: substitution passes while the search
      finds a repeat group, then the outer parentheses are dropped. */
  method ExpandGroups(format: string) returns (f: string)
    ensures f == StripOuter(Expand(format))
  {
    f := format;
    while HasGroup(f)
      invariant Expand(f) == Expand(format)
      decreases CloseCount(f)
    {
      ExpandFromCount(f, 0);
      f := ExpandFrom(f, 0);
    }
    f := StripOuter(f);
  }

  /** Lines 43-54 of Fortran.py: one descriptor per match of the token
      pattern, in order. */
  method Extract(f: string, trim: bool) returns (fs: seq<Descriptor>)
    ensures fs == Descriptors(Tokens(f), trim)
  {
    var ts := Tokens(f);
    fs := [];
    for i := 0 to |ts|
      invariant fs == Descriptors(ts[..i], trim)
    {
      DescriptorsNext(ts, i, trim);
      fs := fs + [DescriptorOf(ts[i], trim)];
    }
    assert ts[..|ts|] == ts;
  }

  /** Lines 56-57 of Fortran.py: the line length and the value count. */
  method Totals(fs: seq<Descriptor>) returns (len: nat, count: nat)
    ensures len == Length(fs) && count == FieldCount(fs)
  {
    len, count := 0, 0;
    for i := 0 to |fs|
      invariant len == Length(fs[..i]) && count == FieldCount(fs[..i])
    {
      SumsNext(fs, i);
      len := len + fs[i].count * fs[i].width;
      if !fs[i].kind.Skip? {
        count := count + fs[i].count;
      }
    }
    assert fs[..|fs|] == fs;
  }

  /** The nested loops of `read` over a line at least as long as the
      layout: `pos` advances over every slice, and the value of each slice
      that is not skipped is appended. */
  method ReadFields(fields: seq<Descriptor>, line: string, ghost conv: (Kind, string) -> Result<Value>)
    returns (r: Result<seq<Value>>)
    requires Length(fields) <= |line| && Converts(conv)
    ensures SpanTo(CellsOf(fields), |CellsOf(fields)|) <= |line|
    ensures r == DecodeBy(CellsOf(fields), |CellsOf(fields)|, line, conv)
  {
    ghost var all := CellsOf(fields);
    ReadBounds(fields, line);
    var values: seq<Value> := [];
    var pos := 0;
    var i := 0;
    while i < |fields|
      invariant 0 <= i <= |fields|
      invariant CellsBefore(fields, i) <= |all|
      invariant pos == SpanTo(all, CellsBefore(fields, i)) <= |line|
      invariant DecodeBy(all, CellsBefore(fields, i), line, conv) == Ok(values)
    {
      var next;
      next, pos := ReadRepeats(fields, i, line, pos, values, conv);
      if next.Err? {
        ReadEnd(fields, line);
        return next;
      }
      values := next.value;
      i := i + 1;
    }
    ReadEnd(fields, line);
    return Ok(values);
  }

  /** The inner loop of `read` for descriptor i: its `count` slices read
      one after the other, stopping at the first error. */
  method ReadRepeats(fields: seq<Descriptor>, i: nat, line: string, start: nat, values: seq<Value>,
                     ghost conv: (Kind, string) -> Result<Value>)
    returns (r: Result<seq<Value>>, pos: nat)
    requires i < |fields| && Length(fields) <= |line| && Converts(conv)
    requires CellsBefore(fields, i) <= |CellsOf(fields)|
    requires start == SpanTo(CellsOf(fields), CellsBefore(fields, i)) <= |line|
    requires DecodeBy(CellsOf(fields), CellsBefore(fields, i), line, conv) == Ok(values)
    ensures CellsBefore(fields, i + 1) <= |CellsOf(fields)| && SpanTo(CellsOf(fields), |CellsOf(fields)|) <= |line|
    ensures r.Ok? ==> pos == SpanTo(CellsOf(fields), CellsBefore(fields, i + 1)) <= |line|
    ensures r.Ok? ==> r == DecodeBy(CellsOf(fields), CellsBefore(fields, i + 1), line, conv)
    ensures r.Err? ==> r == DecodeBy(CellsOf(fields), |CellsOf(fields)|, line, conv)
  {
    ReadBounds(fields, line);
    CellsBeforeBound(fields, i + 1);
    ghost var base := CellsBefore(fields, i);
    forall m | base <= m < base + fields[i].count
      ensures CellsOf(fields)[m] == Cell(fields[i].width, fields[i].kind)
    {
      CellAt(fields, i, m - base);
    }
    r, pos := ReadRun(CellsOf(fields), CellsBefore(fields, i), fields[i], line, start, values, conv);
  }

  /** The same loop on the slices of `all` from `base` on, which
      descriptor `d` makes. */
  method ReadRun(ghost all: seq<Cell>, ghost base: nat, d: Descriptor, line: string, start: nat, values: seq<Value>,
                 ghost conv: (Kind, string) -> Result<Value>)
    returns (r: Result<seq<Value>>, pos: nat)
    requires base + d.count <= |all| && SpanTo(all, |all|) <= |line| && Converts(conv)
    requires forall m :: base <= m < base + d.count ==> all[m] == Cell(d.width, d.kind)
    requires start == SpanTo(all, base) <= |line| && DecodeBy(all, base, line, conv) == Ok(values)
    ensures r.Ok? ==> pos == SpanTo(all, base + d.count) <= |line| && r == DecodeBy(all, base + d.count, line, conv)
    ensures r.Err? ==> r == DecodeBy(all, |all|, line, conv)
  {
    var acc := values;
    pos := start;
    var c := 0;
    while c < d.count
      invariant 0 <= c <= d.count
      invariant pos == SpanTo(all, base + c) <= |line|
      invariant DecodeBy(all, base + c, line, conv) == Ok(acc)
    {
      var next := ReadSlice(all, base + c, d, line, pos, acc, conv);
      if next.Err? {
        DecodeByStops(all, base + c + 1, |all|, line, conv);
        return next, pos;
      }
      acc := next.value;
      pos := pos + d.width;
      c := c + 1;
    }
    return Ok(acc), pos;
  }

  lemma CompileInvalid(format: string, names: Option<string>, trim: bool)
    requires !ValidStart(Expanded(format))
    ensures Compile(format, names, trim) == Err(InvalidFormat(Upper(format)))
  {
  }

  lemma CompileMismatch(format: string, names: Option<string>, trim: bool)
    requires ValidStart(Expanded(format)) && HasNames(names)
    requires |Split(names.value)| != FieldCount(FieldsOf(format, trim))
    ensures Compile(format, names, trim) == Err(FieldNameCount(names.value, Upper(format)))
  {
  }

  lemma CompileValid(format: string, names: Option<string>, trim: bool)
    requires ValidStart(Expanded(format))
    requires HasNames(names) ==> |Split(names.value)| == FieldCount(FieldsOf(format, trim))
    ensures Compile(format, names, trim)
         == Ok(Compiled(Upper(format), FieldsOf(format, trim), Length(FieldsOf(format, trim)),
                        FieldCount(FieldsOf(format, trim)), if HasNames(names) then Some(Split(names.value)) else None))
  {
  }

  /** Lines 47-54 of Fortran.py, one match further. */
  lemma DescriptorsNext(ts: seq<Token>, i: nat, trim: bool)
    requires i < |ts| && forall m :: 0 <= m < |ts| ==> TokenShape(ts[m])
    ensures Descriptors(ts[..i + 1], trim) == Descriptors(ts[..i], trim) + [DescriptorOf(ts[i], trim)]
  {
  }

  /** Lines 56-57 of Fortran.py, one descriptor further. */
  lemma SumsNext(fields: seq<Descriptor>, i: nat)
    requires i < |fields|
    ensures Length(fields[..i + 1]) == Length(fields[..i]) + fields[i].count * fields[i].width
    ensures FieldCount(fields[..i + 1]) == FieldCount(fields[..i]) + if fields[i].kind.Skip? then 0 else fields[i].count
  {
    assert fields[..i + 1][..i] == fields[..i];
  }

  /** The cells of one more descriptor follow those of the ones before it. */
  lemma CellsOfNext(fields: seq<Descriptor>, i: nat)
    requires i < |fields|
    ensures CellsOf(fields[..i + 1]) == CellsOf(fields[..i]) + Unfold(fields[i])
    ensures |CellsOf(fields[..i + 1])| == |CellsOf(fields[..i])| + fields[i].count
  {
    assert fields[..i + 1][..i] == fields[..i];
  }

  /** The number of slices the first i descriptors cut. */
  function CellsBefore(fields: seq<Descriptor>, i: nat): nat
    requires i <= |fields|
  {
    if i == 0 then 0 else CellsBefore(fields, i - 1) + fields[i - 1].count
  }

  lemma {:induction false} CellsBeforeIs(fields: seq<Descriptor>, i: nat)
    requires i <= |fields|
    ensures CellsBefore(fields, i) == |CellsOf(fields[..i])|
  {
    if i > 0 {
      CellsBeforeIs(fields, i - 1);
      CellsOfNext(fields, i - 1);
    }
  }

  /** One pass of the inner loop of `read` on the n-th slice of `all`,
      which descriptor `d` makes: the slice at `pos` is skipped for X and
      otherwise converted, its value appended, or its error returned. */
  method ReadSlice(ghost all: seq<Cell>, ghost n: nat, d: Descriptor, line: string, pos: nat, values: seq<Value>,
                   ghost conv: (Kind, string) -> Result<Value>)
    returns (r: Result<seq<Value>>)
    requires n < |all| && all[n] == Cell(d.width, d.kind) && SpanTo(all, |all|) <= |line| && Converts(conv)
    requires pos == SpanTo(all, n) <= |line| && DecodeBy(all, n, line, conv) == Ok(values)
    ensures pos + d.width == SpanTo(all, n + 1) <= |line|
    ensures r == DecodeBy(all, n + 1, line, conv)
  {
    SpanStep(all, n, d, line);
    if d.kind.Skip? {
      ReadSkip(all, n, d, line, values, conv);
      return Ok(values);
    }
    var v := Convert(d.kind, line[pos..pos + d.width]);
    ReadConvert(all, n, d, line, values, v, conv);
    if v.Err? {
      return Err(v.error);
    }
    return Ok(values + [v.value]);
  }

  lemma CellsBeforeBound(fields: seq<Descriptor>, i: nat)
    requires i <= |fields|
    ensures CellsBefore(fields, i) <= |CellsOf(fields)|
  {
    CellsBeforeIs(fields, i);
    CellsOfPrefix(fields, i);
  }

  /** The c-th slice of descriptor i sits right after the slices before it. */
  lemma CellAt(fields: seq<Descriptor>, i: nat, c: nat)
    requires i < |fields| && c < fields[i].count
    ensures CellsBefore(fields, i) + c < |CellsOf(fields)|
    ensures CellsOf(fields)[CellsBefore(fields, i) + c] == Cell(fields[i].width, fields[i].kind)
  {
    CellsBeforeIs(fields, i);
    CellsOfNext(fields, i);
    CellsOfPrefix(fields, i + 1);
    var p := CellsOf(fields[..i + 1]);
    assert p[|CellsOf(fields[..i])| + c] == Unfold(fields[i])[c];
  }

  /** Every slice of the layout fits in the padded line. */
  lemma ReadBounds(fields: seq<Descriptor>, line: string)
    requires Length(fields) <= |line|
    ensures SpanTo(CellsOf(fields), |CellsOf(fields)|) <= |line|
  {
    var all := CellsOf(fields);
    CellsSpan(fields);
    SpanToIs(all, |all|);
    assert all[..|all|] == all;
  }

  /** The loops of `read` have walked every slice. */
  lemma ReadEnd(fields: seq<Descriptor>, line: string)
    requires Length(fields) <= |line|
    ensures CellsBefore(fields, |fields|) == |CellsOf(fields)|
    ensures SpanTo(CellsOf(fields), |CellsOf(fields)|) <= |line|
  {
    CellsBeforeIs(fields, |fields|);
    assert fields[..|fields|] == fields;
    ReadBounds(fields, line);
  }

  /** With the converters of the descriptors, the walk by index decodes
      the padded line as `DecodeCells` does. */
  lemma ReadDecodes(fields: seq<Descriptor>, line: string)
    requires Length(fields) <= |line|
    ensures Span(CellsOf(fields)) <= |line| && SpanTo(CellsOf(fields), |CellsOf(fields)|) <= |line|
    ensures DecodeBy(CellsOf(fields), |CellsOf(fields)|, line, Converter) == DecodeCells(CellsOf(fields), line)
  {
    var all := CellsOf(fields);
    ReadBounds(fields, line);
    CellsSpan(fields);
    ConverterConverts();
    DecodeByIs(all, |all|, line, Converter);
    DecodeToIs(all, |all|, line);
    assert all[..|all|] == all;
  }

  /** The slice after the first n ends within the padded line. */
  lemma SpanStep(all: seq<Cell>, n: nat, d: Descriptor, line: string)
    requires n < |all| && all[n] == Cell(d.width, d.kind) && SpanTo(all, |all|) <= |line|
    ensures SpanTo(all, n + 1) == SpanTo(all, n) + d.width <= |line|
  {
    SpanToMono(all, n + 1, |all|);
  }

  /** One turn of the inner loop of `read` on a skipped slice. */
  lemma ReadSkip(all: seq<Cell>, n: nat, d: Descriptor, line: string, values: seq<Value>, conv: (Kind, string) -> Result<Value>)
    requires n < |all| && all[n] == Cell(d.width, d.kind) && d.kind.Skip?
    requires SpanTo(all, n + 1) <= |line| && DecodeBy(all, n, line, conv) == Ok(values)
    ensures DecodeBy(all, n + 1, line, conv) == Ok(values)
  {
  }

  /** One turn of the inner loop of `read` on a converted slice: `v` is
      the conversion of the slice after the first n. */
  lemma ReadConvert(all: seq<Cell>, n: nat, d: Descriptor, line: string, values: seq<Value>, v: Result<Value>,
                    conv: (Kind, string) -> Result<Value>)
    requires n < |all| && all[n] == Cell(d.width, d.kind) && !d.kind.Skip? && Converts(conv)
    requires SpanTo(all, n + 1) <= |line| && DecodeBy(all, n, line, conv) == Ok(values)
    requires SpanTo(all, n) + d.width <= |line|
    requires v == Convert(d.kind, line[SpanTo(all, n)..SpanTo(all, n) + d.width])
    ensures DecodeBy(all, n + 1, line, conv) == if v.Ok? then Ok(values + [v.value]) else Err(v.error)
  {
  }

  // ---------------------------------------------------------------------
  // The walk of `read` with the converters as a parameter

  /** The values of the first n cells, decoded left to right as `DecodeTo`
      does, with `conv` standing for the converters. The loops above are
      proved against this form, so that their proofs do not unfold the
      converters; `DecodeByIs` ties it back to `DecodeTo`. */
  function DecodeBy(cells: seq<Cell>, n: nat, line: string, conv: (Kind, string) -> Result<Value>): Result<seq<Value>>
    requires n <= |cells| && SpanTo(cells, n) <= |line|
  {
    if n == 0 then Ok([])
    else
      var at := SpanTo(cells, n - 1);
      match DecodeBy(cells, n - 1, line, conv)
      case Err(e) => Err(e)
      case Ok(vs) =>
        if cells[n - 1].kind.Skip? then Ok(vs)
        else match conv(cells[n - 1].kind, line[at..at + cells[n - 1].width])
          case Err(e) => Err(e)
          case Ok(v) => Ok(vs + [v])
  }

  /** `conv` agrees with the converter of every kind that is not skipped. */
  ghost predicate Converts(conv: (Kind, string) -> Result<Value>) {
    forall k: Kind, s: string {:trigger Convert(k, s)} :: !k.Skip? ==> conv(k, s) == Convert(k, s)
  }

  /** The converters as one total function; X slices never reach it. */
  function Converter(k: Kind, s: string): Result<Value> {
    if k.Skip? then Ok(StrVal(s)) else Convert(k, s)
  }

  lemma ConverterConverts()
    ensures Converts(Converter)
  {
  }

  /** Any function that agrees with the converters decodes as `DecodeTo`. */
  lemma {:induction false} DecodeByIs(cells: seq<Cell>, n: nat, line: string, conv: (Kind, string) -> Result<Value>)
    requires n <= |cells| && SpanTo(cells, n) <= |line|
    requires Converts(conv)
    ensures DecodeBy(cells, n, line, conv) == DecodeTo(cells, n, line)
    decreases n
  {
    if n > 0 {
      DecodeByIs(cells, n - 1, line, conv);
    }
  }

  /** Once a conversion raises, later cells change nothing. */
  lemma {:induction false} DecodeByStops(cells: seq<Cell>, n: nat, m: nat, line: string, conv: (Kind, string) -> Result<Value>)
    requires n <= m <= |cells| && SpanTo(cells, m) <= |line|
    requires SpanTo(cells, n) <= |line| && DecodeBy(cells, n, line, conv).Err?
    ensures DecodeBy(cells, m, line, conv) == DecodeBy(cells, n, line, conv)
    decreases m - n
  {
    if n < m {
      SpanToMono(cells, m - 1, m);
      DecodeByStops(cells, n, m - 1, line, conv);
    }
  }
}
