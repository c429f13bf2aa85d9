/** Layouts of the fixed-width record engine (`Format.setFormat` in
    Fortran.py): a layout string in a subset of Fortran edit descriptors (nX,
    Fw.d, Iw, Aw, Hw and repeat groups n(...)) is compiled into descriptors,
    a line length and a value count. */
module FortranLayout {
  import opened Base
  import opened Text

  // ---------------------------------------------------------------------
  // Descriptors, values, records

  /** The converter a descriptor applies to its slice: none for X, `int`
      for I, `float` after D->E for F, and `str` (stripped when the format
      trims) for A and H. */
  datatype Kind = Skip | Int | Real | Str(trim: bool)

  /** `(count, width, converter)`: `count` consecutive fields of `width`
      characters each. */
  datatype Descriptor = Descriptor(count: nat, width: nat, kind: Kind)

  /** A decoded value. A real is kept as the text `float()` accepted (after
      D->E), since floating point is not modelled. */
  datatype Value = IntVal(i: int) | RealVal(text: string) | StrVal(s: string)

  /** A decoded line: the values in descriptor order, and the field names
      when the format was given names (a named tuple), else none (a tuple). */
  datatype Record = Record(names: Option<seq<string>>, values: seq<Value>)

  /** The state `setFormat` leaves on a `Format` object when it succeeds. */
  datatype Compiled = Compiled(
    spec: string,                  // _format: the upper-cased layout as given
    fields: seq<Descriptor>,       // _fields
    length: nat,                   // _length
    fieldCount: nat,               // _fieldcount
    names: Option<seq<string>>)    // _rectype: named tuple over these names, or tuple

  /** Σ count×width: the number of characters a line must hold. */
  function Length(fields: seq<Descriptor>): nat
  {
    if fields == [] then 0
    else Length(fields[..|fields| - 1]) + fields[|fields| - 1].count * fields[|fields| - 1].width
  }

  /** Σ count over the descriptors that produce values. */
  function FieldCount(fields: seq<Descriptor>): nat
  {
    if fields == [] then 0
    else
      var last := fields[|fields| - 1];
      FieldCount(fields[..|fields| - 1]) + (if last.kind.Skip? then 0 else last.count)
  }

  ghost predicate WellFormed(c: Compiled) {
    && c.length == Length(c.fields)
    && c.fieldCount == FieldCount(c.fields)
    && (c.names.Some? ==> |c.names.value| == c.fieldCount)
  }

  // ---------------------------------------------------------------------
  // Repeat groups: `re.sub(r'(\d+)\(([^\)]+)\)', ...)` until
  // `re.search(r'\d\([^\)]+\)', ...)` finds nothing

  /** The end of the digit run at index i: where `(\d+)\(` needs its '('. */
  function OpenAt(s: string, i: nat): (j: nat)
    requires i < |s|
    ensures i <= j <= |s|
  {
    i + DigitRun(s, i)
  }

  /** `(\d+)\(([^\)]+)\)` matches when tried at index i. */
  predicate GroupAt(s: string, i: nat)
    requires i < |s|
  {
    var j := OpenAt(s, i);
    i < j < |s| - 1 && s[j] == '(' && j + 1 < IndexFrom(s, j + 1, ')') < |s|
  }

  /** The index of the ')' ending the group matched at i. */
  function CloseAt(s: string, i: nat): (k: nat)
    requires i < |s| && GroupAt(s, i)
    ensures i < OpenAt(s, i) && OpenAt(s, i) + 1 < k < |s|
    ensures s[OpenAt(s, i)] == '(' && s[k] == ')'
  {
    IndexFrom(s, OpenAt(s, i) + 1, ')')
  }

  /** `int(s[i:j])` of a run of ASCII digits, read in place. */
  function DigitsAt(s: string, i: nat, j: nat): nat
    requires i <= j <= |s|
    decreases j - i
  {
    if i == j then 0
    else DigitsAt(s, i, j - 1) * 10 + DigitValue(s[j - 1])
  }

  /** The replacement text of a group: `','.join(n*[body])`. */
  function Repeated(n: nat, body: string): string
    decreases n
  {
    if n == 0 then [] else if n == 1 then body else body + "," + Repeated(n - 1, body)
  }

  /** `Repeated` is the `','.join` of `n` copies. */
  lemma {:induction false} RepeatedIsJoin(n: nat, body: string)
    ensures Repeated(n, body) == Join(Copies(n, body), ",")
    decreases n
  {
    if n > 1 {
      RepeatedIsJoin(n - 1, body);
      assert Copies(n, body)[1..] == Copies(n - 1, body);
    }
  }

  /** What one step of a `re.sub` pass emits at index i: the copies of
      the group found there, or the character itself. */
  function Piece(s: string, i: nat): string
    requires i < |s|
  {
    if GroupAt(s, i) then Repeated(DigitsAt(s, i, OpenAt(s, i)), Body(s, i))
    else [s[i]]
  }

  /** Where the pass resumes after index i: past the group's ')', or at the
      next character. */
  function Next(s: string, i: nat): (n: nat)
    requires i < |s|
    ensures i < n <= |s|
  {
    if GroupAt(s, i) then CloseAt(s, i) + 1 else i + 1
  }

  /** One `re.sub` pass from index i: every group `n(body)` found scanning
      left to right becomes `n` comma-joined copies of `body`. */
  function ExpandFrom(s: string, i: nat): string
    requires i <= |s|
    decreases |s| - i, 1
  {
    if i == |s| then [] else Emit(s, i)
  }

  /** A pass from an index inside s: the piece emitted there, then the
      pass from where it resumes. */
  function Emit(s: string, i: nat): string
    requires i < |s|
    decreases |s| - i, 0
  {
    Piece(s, i) + ExpandFrom(s, Next(s, i))
  }

  /** `re.search(r'\d\([^\)]+\)', s[i:])` finds a match. */
  predicate HasGroupFrom(s: string, i: nat)
    requires i <= |s|
    decreases |s| - i
  {
    i + 2 < |s| &&
    ((IsDigit(s[i]) && s[i + 1] == '(' && s[i + 2] != ')' && IndexFrom(s, i + 2, ')') < |s|)
     || HasGroupFrom(s, i + 1))
  }

  predicate HasGroup(s: string) {
    HasGroupFrom(s, 0)
  }

  /** The number of ')' at or after index i. */
  function CloseCountFrom(s: string, i: nat): nat
    requires i <= |s|
    decreases |s| - i
  {
    if i == |s| then 0 else CloseCountFrom(s, i + 1) + (if s[i] == ')' then 1 else 0)
  }

  /** The number of ')' in s: what every substitution pass lowers. */
  function CloseCount(s: string): nat {
    CloseCountFrom(s, 0)
  }

  lemma {:induction false} CloseCountShift(a: string, b: string, m: nat)
    requires m <= |b|
    ensures CloseCountFrom(a + b, |a| + m) == CloseCountFrom(b, m)
    decreases |b| - m
  {
    if m < |b| {
      CloseCountShift(a, b, m + 1);
      assert (a + b)[|a| + m] == b[m];
    }
  }

  lemma {:induction false} CloseCountFromAppend(a: string, b: string, i: nat)
    requires i <= |a|
    ensures CloseCountFrom(a + b, i) == CloseCountFrom(a, i) + CloseCount(b)
    decreases |a| - i
  {
    if i < |a| {
      CloseCountFromAppend(a, b, i + 1);
      assert (a + b)[i] == a[i];
    } else {
      CloseCountShift(a, b, 0);
    }
  }

  lemma CloseCountAppend(a: string, b: string)
    ensures CloseCount(a + b) == CloseCount(a) + CloseCount(b)
  {
    CloseCountFromAppend(a, b, 0);
  }

  lemma {:induction false} CloseCountFromNone(s: string, i: nat)
    requires i <= |s| && forall m :: i <= m < |s| ==> s[m] != ')'
    ensures CloseCountFrom(s, i) == 0
    decreases |s| - i
  {
    if i < |s| {
      CloseCountFromNone(s, i + 1);
    }
  }

  lemma CloseCountNone(s: string)
    requires forall m :: 0 <= m < |s| ==> s[m] != ')'
    ensures CloseCount(s) == 0
  {
    CloseCountFromNone(s, 0);
  }

  lemma {:induction false} CloseCountFromMono(s: string, i: nat, k: nat)
    requires i <= k <= |s|
    ensures CloseCountFrom(s, k) <= CloseCountFrom(s, i)
    decreases k - i
  {
    if i < k {
      CloseCountFromMono(s, i + 1, k);
    }
  }

  /** Where the search hits, the substitution matches too. */
  lemma SearchHitIsGroup(s: string, i: nat)
    requires i + 2 < |s| && IsDigit(s[i]) && s[i + 1] == '(' && s[i + 2] != ')' && IndexFrom(s, i + 2, ')') < |s|
    ensures GroupAt(s, i)
  {
    assert DigitRun(s, i + 1) == 0;
    assert IndexFrom(s, i + 1, ')') == IndexFrom(s, i + 2, ')');
  }

  /** The copies of a group body hold no ')'. */
  lemma {:induction false} RepeatedNoClose(n: nat, body: string)
    requires NoClose(body)
    ensures CloseCount(Repeated(n, body)) == 0
    decreases n
  {
    CloseCountNone(body);
    if n > 1 {
      RepeatedNoClose(n - 1, body);
      CloseCountNone(",");
      CloseCountAppend(body, ",");
      CloseCountAppend(body + ",", Repeated(n - 1, body));
    }
  }

  /** No ')' occurs in t. */
  predicate NoClose(t: string) {
    forall m :: 0 <= m < |t| ==> t[m] != ')'
  }

  /** The text between the parentheses of the group at i. */
  function Body(s: string, i: nat): string
    requires i < |s| && GroupAt(s, i)
  {
    s[OpenAt(s, i) + 1..CloseAt(s, i)]
  }

  /** The body of the group at i holds no ')'. */
  lemma BodyNoClose(s: string, i: nat)
    requires i < |s| && GroupAt(s, i)
    ensures NoClose(Body(s, i))
  {
    var j, k, body := OpenAt(s, i), CloseAt(s, i), Body(s, i);
    IndexFromClear(s, j + 1, ')');
    forall m | 0 <= m < |body| ensures body[m] != ')' {
      assert body[m] == s[j + 1 + m];
    }
  }

  /** The copies emitted for a group hold no ')'. */
  lemma PieceNoClose(s: string, i: nat)
    requires i < |s| && GroupAt(s, i)
    ensures CloseCount(Piece(s, i)) == 0
  {
    BodyNoClose(s, i);
    RepeatedNoClose(DigitsAt(s, i, OpenAt(s, i)), Body(s, i));
  }

  /** A pass resumes past the group's ')'. */
  lemma GroupSkipsClose(s: string, i: nat)
    requires i < |s| && GroupAt(s, i)
    ensures CloseCountFrom(s, Next(s, i)) < CloseCountFrom(s, i)
  {
    var k := CloseAt(s, i);
    CloseCountFromMono(s, i, k);
    assert CloseCountFrom(s, k) == CloseCountFrom(s, k + 1) + 1;
  }

  /** A group expanded at i removes its ')' and adds none. */
  lemma CountGroupStep(s: string, i: nat)
    requires i < |s| && GroupAt(s, i) && Lowers(s, Next(s, i))
    ensures Lowers(s, i)
  {
    ExpandStep(s, i);
    PieceNoClose(s, i);
    CloseCountAppend(Piece(s, i), ExpandFrom(s, Next(s, i)));
    GroupSkipsClose(s, i);
  }

  lemma CharCount(c: char)
    ensures CloseCount([c]) == if c == ')' then 1 else 0
  {
    assert CloseCountFrom([c], 1) == 0;
  }

  /** The search cannot hit where the substitution does not match. */
  lemma NoHitAt(s: string, i: nat)
    requires i < |s| && !GroupAt(s, i)
    ensures HasGroupFrom(s, i) ==> HasGroupFrom(s, i + 1)
  {
    if i + 2 < |s| && IsDigit(s[i]) && s[i + 1] == '(' && s[i + 2] != ')' && IndexFrom(s, i + 2, ')') < |s| {
      SearchHitIsGroup(s, i);
    }
  }

  /** A character copied at i keeps the count. */
  lemma CountCharStep(s: string, i: nat)
    requires i < |s| && !GroupAt(s, i) && Lowers(s, Next(s, i))
    ensures Lowers(s, i)
  {
    ExpandStep(s, i);
    PieceNone(s, i);
    CharCount(s[i]);
    CloseCountAppend([s[i]], ExpandFrom(s, i + 1));
    NoHitAt(s, i);
  }

  /** A pass from index i never adds a ')', and removes one when the
      search finds a group there. */
  predicate Lowers(s: string, i: nat)
    requires i <= |s|
  {
    && CloseCount(ExpandFrom(s, i)) <= CloseCountFrom(s, i)
    && (HasGroupFrom(s, i) ==> CloseCount(ExpandFrom(s, i)) < CloseCountFrom(s, i))
  }

  lemma CountEnd(s: string)
    ensures Lowers(s, |s|)
  {
  }

  lemma {:induction false} LowersFrom(s: string, i: nat)
    requires i <= |s|
    ensures Lowers(s, i)
    decreases |s| - i
  {
    if i == |s| {
      CountEnd(s);
    } else {
      LowersFrom(s, Next(s, i));
      CountStep(s, i);
    }
  }

  lemma CountStep(s: string, i: nat)
    requires i < |s| && Lowers(s, Next(s, i))
    ensures Lowers(s, i)
  {
    if GroupAt(s, i) {
      CountGroupStep(s, i);
    } else {
      CountCharStep(s, i);
    }
  }

  /** A pass never adds a ')', and removes one for each group it expands. */
  lemma ExpandFromCount(s: string, i: nat)
    requires i <= |s|
    ensures CloseCount(ExpandFrom(s, i)) <= CloseCountFrom(s, i)
    ensures HasGroupFrom(s, i) ==> CloseCount(ExpandFrom(s, i)) < CloseCountFrom(s, i)
  {
    LowersFrom(s, i);
  }

  /** The `while` loop of lines 26-29: passes are repeated until the search
      finds no group; each pass removes a ')', so the loop ends. */
  function Expand(s: string): (r: string)
    ensures !HasGroup(r)
    decreases CloseCount(s)
  {
    if HasGroup(s) then
      ExpandFromCount(s, 0);
      Expand(ExpandFrom(s, 0))
    else s
  }

  /** Line 30: surrounding whitespace is stripped, then one pair of
      parentheses enclosing the whole layout is dropped (`.` does not
      match a newline, so a layout holding one keeps its parentheses). */
  function StripOuter(s: string): string {
    var t := Strip(s);
    if |t| >= 2 && t[0] == '(' && t[|t| - 1] == ')' && '\n' !in t[1..|t| - 1] then t[1..|t| - 1] else t
  }

  /** The layout string the descriptors are extracted from. */
  function Expanded(format: string): string {
    StripOuter(Expand(Upper(format)))
  }

  // ---------------------------------------------------------------------
  // Validation (lines 32-41) and extraction (lines 46-54)

  predicate SepOrEnd(s: string, i: nat) {
    i == |s| || (i < |s| && s[i] == ',')
  }

  /** `re.match(r'(\d*X|\d*F\d+\.\d+|\d*[IHA]\d+)(,|$)+', s)`: only the first
      token is checked. */
  predicate ValidStart(s: string) {
    var d := DigitRun(s, 0);
    d < |s| &&
    ((s[d] == 'X' && SepOrEnd(s, d + 1))
     || (s[d] == 'F' &&
         var a := DigitRun(s, d + 1);
         a > 0 && d + 1 + a < |s| && s[d + 1 + a] == '.' &&
         var b := DigitRun(s, d + 2 + a);
         b > 0 && SepOrEnd(s, d + 2 + a + b))
     || ((s[d] == 'I' || s[d] == 'H' || s[d] == 'A') &&
         var a := DigitRun(s, d + 1);
         a > 0 && SepOrEnd(s, d + 1 + a)))
  }

  /** The groups of one `findall` match of `(\d*)(X|[FIAH](\d*))`: repeat
      digits, the letter, width digits. */
  datatype Token = Token(repeat: string, letter: char, width: string)

  predicate IsLetter(c: char) {
    c == 'X' || c == 'F' || c == 'I' || c == 'A' || c == 'H'
  }

  /** What the groups of a match can hold. */
  predicate TokenShape(t: Token) {
    IsLetter(t.letter) && AllDigits(t.repeat) && AllDigits(t.width) && (t.letter == 'X' ==> t.width == [])
  }

  /** A match of the `findall` pattern at the start of s, with the length
      it consumes. */
  function TokenAt(s: string): (r: Option<(Token, nat)>)
    requires s != []
    ensures r.Some? ==> 0 < r.value.1 <= |s|
  {
    var d := DigitRun(s, 0);
    if d < |s| && IsLetter(s[d]) then
      if s[d] == 'X' then Some((Token(s[..d], 'X', []), d + 1))
      else
        var w := DigitRun(s, d + 1);
        Some((Token(s[..d], s[d], s[d + 1..d + 1 + w]), d + 1 + w))
    else None
  }

  /** Every match has the shape the pattern describes. */
  lemma TokenAtShape(s: string)
    requires s != []
    ensures TokenAt(s).Some? ==> TokenShape(TokenAt(s).value.0)
  {
    var d := DigitRun(s, 0);
    DigitRunSlice(s, 0);
    if d < |s| && IsLetter(s[d]) && s[d] != 'X' {
      DigitRunSlice(s, d + 1);
    }
  }

  /** `re.findall`: text that does not match is skipped one character at a
      time. */
  function Tokens(s: string): (ts: seq<Token>)
    ensures forall m :: 0 <= m < |ts| ==> TokenShape(ts[m])
    decreases |s|
  {
    if s == [] then []
    else
      TokenAtShape(s);
      match TokenAt(s)
      case Some((t, n)) => [t] + Tokens(s[n..])
      case None => Tokens(s[1..])
  }

  /** Lines 47-54: count and width default to 1; for F only the digits
      before the '.' were captured, so `Fw.d` keeps `w` alone. */
  function DescriptorOf(t: Token, trim: bool): Descriptor
    requires TokenShape(t)
  {
    Descriptor(
      if t.repeat == [] then 1 else DigitsValue(t.repeat),
      if t.width == [] then 1 else DigitsValue(t.width),
      if t.letter == 'I' then Int
      else if t.letter == 'F' then Real
      else if t.letter == 'X' then Skip
      else Str(trim))
  }

  function Descriptors(ts: seq<Token>, trim: bool): (fields: seq<Descriptor>)
    requires forall m :: 0 <= m < |ts| ==> TokenShape(ts[m])
    ensures |fields| == |ts|
  {
    seq(|ts|, m requires 0 <= m < |ts| => DescriptorOf(ts[m], trim))
  }

  /** The descriptors extracted from a layout. */
  function FieldsOf(format: string, trim: bool): seq<Descriptor> {
    Descriptors(Tokens(Expanded(format)), trim)
  }

  /** `names` as `setFormat` reads it: only a non-empty string names the
      fields (`if names:`). */
  predicate HasNames(names: Option<string>) {
    names.Some? && names.value != []
  }

  /** What `Format(format, names, trim)` produces, or the ValueError it
      raises. */
  function Compile(format: string, names: Option<string>, trim: bool): (r: Result<Compiled>)
    ensures r.Ok? ==> WellFormed(r.value) && r.value.fields == FieldsOf(format, trim)
    ensures r.Ok? <==> ValidStart(Expanded(format))
                       && (HasNames(names) ==> |Split(names.value)| == FieldCount(FieldsOf(format, trim)))
    ensures r.Err? ==> r.error == if ValidStart(Expanded(format)) then FieldNameCount(names.value, Upper(format))
                                   else InvalidFormat(Upper(format))
  {
    var spec := Upper(format);
    if !ValidStart(Expanded(format)) then Err(InvalidFormat(spec))
    else
      var fields := FieldsOf(format, trim);
      var n := FieldCount(fields);
      if HasNames(names) then
        var fieldnames := Split(names.value);
        if |fieldnames| != n then Err(FieldNameCount(names.value, spec))
        else Ok(Compiled(spec, fields, Length(fields), n, Some(fieldnames)))
      else Ok(Compiled(spec, fields, Length(fields), n, None))
  }

  // ---------------------------------------------------------------------
  // Layouts as written: comma-joined well-formed tokens are read back token
  // for token, and a repeat group expands to its copies

  /** A token as written in a layout: repeat digits, letter, width digits
      and, for F, the digits after the '.'. */
  datatype Written = Written(repeat: string, letter: char, width: string, decimals: string)

  /** The grammar the validation regex accepts for one token. */
  predicate WellWritten(w: Written) {
    && AllDigits(w.repeat) && AllDigits(w.width) && AllDigits(w.decimals)
    && (if w.letter == 'X' then w.width == [] && w.decimals == []
        else if w.letter == 'F' then w.width != [] && w.decimals != []
        else (w.letter == 'I' || w.letter == 'A' || w.letter == 'H') && w.width != [] && w.decimals == [])
  }

  function Render(w: Written): string {
    w.repeat + [w.letter] + w.width + Fraction(w)
  }

  /** The `.d` part of a rendered descriptor, present for `F` only. */
  function Fraction(w: Written): string {
    if w.letter == 'F' then "." + w.decimals else []
  }

  function RenderAll(ws: seq<Written>): string
    decreases |ws|
  {
    if ws == [] then []
    else if |ws| == 1 then Render(ws[0])
    else Render(ws[0]) + ("," + RenderAll(ws[1..]))
  }

  /** What follows the first token of a rendered layout. */
  function RenderAllTail(ws: seq<Written>): (rest: string)
    requires ws != []
    ensures rest == [] || rest[0] == ','
  {
    if |ws| == 1 then [] else "," + RenderAll(ws[1..])
  }

  lemma RenderAllHead(ws: seq<Written>)
    requires ws != []
    ensures RenderAll(ws) == Render(ws[0]) + RenderAllTail(ws)
  {
    if |ws| == 1 {
      assert Render(ws[0]) + [] == Render(ws[0]);
    }
  }

  function TokenOf(w: Written): (t: Token)
    ensures WellWritten(w) ==> TokenShape(t)
  {
    Token(w.repeat, w.letter, w.width)
  }

  function TokensOf(ws: seq<Written>): (ts: seq<Token>)
    ensures |ts| == |ws| && forall k :: 0 <= k < |ws| ==> ts[k] == TokenOf(ws[k])
  {
    seq(|ws|, k requires 0 <= k < |ws| => TokenOf(ws[k]))
  }

  predicate LayoutChar(c: char) {
    IsDigit(c) || IsLetter(c) || c == '.' || c == ','
  }

  lemma {:induction false} RenderAllChars(ws: seq<Written>)
    requires forall k :: 0 <= k < |ws| ==> WellWritten(ws[k])
    ensures forall m :: 0 <= m < |RenderAll(ws)| ==> LayoutChar(RenderAll(ws)[m])
    decreases |ws|
  {
    if ws != [] {
      var w := ws[0];
      var r := Render(w);
      assert forall m :: 0 <= m < |r| ==> LayoutChar(r[m]) by {
        var tail := if w.letter == 'F' then "." + w.decimals else [];
        assert r == w.repeat + [w.letter] + w.width + tail;
        assert forall m :: 0 <= m < |tail| ==> LayoutChar(tail[m]);
      }
      if |ws| > 1 {
        RenderAllChars(ws[1..]);
      }
    }
  }

  /** The digit run at index i of `a + b`, with i inside `b`, is that of `b`. */
  lemma {:induction false} DigitRunTo(s: string, i: nat, e: nat)
    requires i <= e <= |s| && AllDigits(s[i..e]) && (e == |s| || !IsDigit(s[e]))
    ensures DigitRun(s, i) == e - i
    decreases e - i
  {
    if i < e {
      assert s[i..e][0] == s[i];
      assert s[i + 1..e] == s[i..e][1..];
      DigitRunTo(s, i + 1, e);
    }
  }

  /** A run of digits ending at a comma or at the end holds no token. */
  lemma {:induction false} TokensSkipDigits(digits: string, rest: string)
    requires AllDigits(digits) && (rest == [] || rest[0] == ',')
    ensures Tokens(digits + rest) == Tokens(rest)
    decreases |digits|
  {
    if digits != [] {
      var s := digits + rest;
      NoTokenAtDigits(digits, rest);
      assert s[1..] == digits[1..] + rest;
      TokensSkipDigits(digits[1..], rest);
    }
  }

  lemma NoTokenAtDigits(digits: string, rest: string)
    requires digits != [] && AllDigits(digits) && (rest == [] || rest[0] == ',')
    ensures TokenAt(digits + rest).None?
  {
    var s := digits + rest;
    assert s[..|digits|] == digits;
    DigitRunTo(s, 0, |digits|);
  }

  /** The match at the start of s when s begins with repeat digits, a
      letter and width digits ending at e. */
  lemma TokenAtParts(s: string, n: nat, e: nat)
    requires n < e <= |s| && AllDigits(s[..n]) && IsLetter(s[n]) && AllDigits(s[n + 1..e])
    requires e == |s| || !IsDigit(s[e])
    requires s[n] == 'X' ==> e == n + 1
    ensures TokenAt(s) == Some((Token(s[..n], s[n], s[n + 1..e]), e))
  {
    DigitRunTo(s, 0, n);
    if s[n] != 'X' {
      DigitRunTo(s, n + 1, e);
    } else {
      assert s[n + 1..e] == [];
    }
  }

  lemma TokensMatch(s: string, t: Token, n: nat, tail: string)
    requires s != [] && TokenAt(s) == Some((t, n)) && s[n..] == tail
    ensures Tokens(s) == [t] + Tokens(tail)
  {
  }

  lemma TokensNoMatch(s: string)
    requires s != [] && TokenAt(s) == None
    ensures Tokens(s) == Tokens(s[1..])
  {
  }

  lemma TokenHead(w: Written, rest: string)
    requires WellWritten(w) && (rest == [] || rest[0] == ',')
    ensures Tokens(Render(w) + rest) == [TokenOf(w)] + Tokens(rest)
  {
    TokensRendered(w, rest);
    TokensAfterHead(w, rest);
  }

  /** A match found by its parts, followed by the rest of the text. */
  lemma TokensParts(s: string, n: nat, e: nat, tail: string)
    requires n < e <= |s| && AllDigits(s[..n]) && IsLetter(s[n]) && AllDigits(s[n + 1..e])
    requires e == |s| || !IsDigit(s[e])
    requires s[n] == 'X' ==> e == n + 1
    requires s[e..] == tail
    ensures Tokens(s) == [Token(s[..n], s[n], s[n + 1..e])] + Tokens(tail)
  {
    TokenAtParts(s, n, e);
    TokensMatch(s, Token(s[..n], s[n], s[n + 1..e]), e, tail);
  }

  /** The first token of a rendered one is matched in full. */
  lemma TokensRendered(w: Written, rest: string)
    requires WellWritten(w) && (rest == [] || rest[0] == ',')
    ensures Tokens(Render(w) + rest) == [TokenOf(w)] + Tokens(Fraction(w) + rest)
  {
    var r := Render(w);
    var s := r + rest;
    var n := |w.repeat|;
    var e := n + 1 + |w.width|;
    assert s[..n] == w.repeat && s[n] == w.letter;
    assert s[n + 1..e] == w.width;
    assert e == |s| || !IsDigit(s[e]) by {
      if w.letter == 'F' {
        assert s[e] == '.';
      } else {
        assert e == |r|;
      }
    }
    RenderedTail(w, rest);
    TokensParts(s, n, e, Fraction(w) + rest);
  }

  lemma RenderedTail(w: Written, rest: string)
    ensures (Render(w) + rest)[|w.repeat| + 1 + |w.width|..] == Fraction(w) + rest
  {
    var head := w.repeat + [w.letter] + w.width;
    assert Render(w) + rest == head + (Fraction(w) + rest);
  }

  /** What follows the first token of a rendered one holds no token. */
  lemma TokensAfterHead(w: Written, rest: string)
    requires AllDigits(w.decimals) && (rest == [] || rest[0] == ',')
    ensures Tokens(Fraction(w) + rest) == Tokens(rest)
  {
    if w.letter == 'F' {
      assert Fraction(w) + rest == "." + (w.decimals + rest);
      TokensDot(w.decimals + rest);
      TokensSkipDigits(w.decimals, rest);
    } else {
      assert Fraction(w) + rest == rest;
    }
  }

  /** A '.' starts no token. */
  lemma TokensDot(t: string)
    ensures Tokens("." + t) == Tokens(t)
  {
    var u := "." + t;
    assert DigitRun(u, 0) == 0;
    TokensNoMatch(u);
    assert u[1..] == t;
  }


  /** `findall` reads a comma-joined list of well-formed tokens back token
      for token. */
  lemma {:induction false} TokensOfRendered(ws: seq<Written>)
    requires forall k :: 0 <= k < |ws| ==> WellWritten(ws[k])
    ensures Tokens(RenderAll(ws)) == TokensOf(ws)
    decreases |ws|
  {
    if |ws| == 1 {
      TokensOfOne(ws[0]);
    } else if |ws| > 1 {
      TokensOfRendered(ws[1..]);
      TokensOfCons(ws);
    }
  }

  lemma TokensOfOne(w: Written)
    requires WellWritten(w)
    ensures Tokens(RenderAll([w])) == TokensOf([w])
  {
    TokenHead(w, []);
    assert Render(w) + [] == Render(w);
  }

  lemma TokensOfCons(ws: seq<Written>)
    requires |ws| > 1 && forall k :: 0 <= k < |ws| ==> WellWritten(ws[k])
    requires Tokens(RenderAll(ws[1..])) == TokensOf(ws[1..])
    ensures Tokens(RenderAll(ws)) == TokensOf(ws)
  {
    var rest := RenderAll(ws[1..]);
    TokenHead(ws[0], "," + rest);
    TokensComma(rest);
    TokensOfSplit(ws);
    AppendSame(Tokens(RenderAll(ws)), [TokenOf(ws[0])], Tokens("," + rest), TokensOf(ws[1..]));
  }

  lemma TokensOfSplit(ws: seq<Written>)
    requires ws != []
    ensures TokensOf(ws) == [TokenOf(ws[0])] + TokensOf(ws[1..])
  {
  }

  /** A ',' starts no token. */
  lemma TokensComma(t: string)
    ensures Tokens("," + t) == Tokens(t)
  {
    var u := "," + t;
    assert DigitRun(u, 0) == 0;
    TokensNoMatch(u);
    assert u[1..] == t;
  }


  /** The validation regex on s split at the letter (n), the end of the
      width (e) and the end of the token (f). */
  lemma ValidStartParts(s: string, n: nat, e: nat, f: nat)
    requires n < e <= f <= |s| && AllDigits(s[..n]) && IsLetter(s[n]) && AllDigits(s[n + 1..e])
    requires e == |s| || !IsDigit(s[e])
    requires if s[n] == 'X' then e == n + 1 && f == e
             else if s[n] == 'F' then n + 1 < e < f && s[e] == '.' && AllDigits(s[e + 1..f]) && e + 1 < f
             else n + 1 < e && f == e
    requires SepOrEnd(s, f)
    ensures ValidStart(s)
  {
    DigitRunTo(s, 0, n);
    if s[n] != 'X' {
      DigitRunTo(s, n + 1, e);
    }
    if s[n] == 'F' {
      DigitRunTo(s, e + 1, f);
    }
  }

  lemma ValidHead(w: Written, rest: string)
    requires WellWritten(w) && (rest == [] || rest[0] == ',')
    ensures ValidStart(Render(w) + rest)
  {
    var r := Render(w);
    var s := r + rest;
    var n := |w.repeat|;
    var e := n + 1 + |w.width|;
    assert s[..n] == w.repeat && s[n] == w.letter;
    assert s[n + 1..e] == w.width;
    assert SepOrEnd(s, |r|);
    if w.letter == 'F' {
      assert s[e] == '.';
      assert s[e + 1..|r|] == w.decimals;
    } else {
      assert e == |r|;
    }
    ValidStartParts(s, n, e, |r|);
  }

  /** The validation accepts a layout whose first token is well formed. */
  lemma ValidRendered(ws: seq<Written>)
    requires ws != [] && forall k :: 0 <= k < |ws| ==> WellWritten(ws[k])
    ensures ValidStart(RenderAll(ws))
  {
    RenderAllHead(ws);
    ValidHead(ws[0], RenderAllTail(ws));
  }

  // ---------------------------------------------------------------------
  // Expansion of layouts whose shape is known

  /** A digit directly followed by '(' at index m. */
  predicate OpensGroup(s: string, m: nat)
    requires m + 1 < |s|
  {
    IsDigit(s[m]) && s[m + 1] == '('
  }

  /** No repeat group starts anywhere in s. */
  predicate NoGroupStart(s: string) {
    forall m :: 0 <= m < |s| - 1 ==> !OpensGroup(s, m)
  }

  lemma {:induction false} NoGroupFrom(s: string, i: nat)
    requires i <= |s| && NoGroupStart(s)
    ensures !HasGroupFrom(s, i)
    decreases |s| - i
  {
    if i < |s| {
      NoGroupFrom(s, i + 1);
      if i < |s| - 1 {
        assert !OpensGroup(s, i);
      }
    }
  }

  /** A pass over text holding no '(' copies it. */
  lemma {:induction false} ExpandPlain(s: string, i: nat)
    requires i <= |s| && forall m :: i <= m < |s| ==> s[m] != '('
    ensures ExpandFrom(s, i) == s[i..]
    decreases |s| - i
  {
    if i < |s| {
      ExpandPlain(s, i + 1);
      assert s[i..] == [s[i]] + s[i + 1..];
    }
  }

  /** One step of a pass: the piece emitted at i, then the rest. */
  lemma ExpandStep(s: string, i: nat)
    requires i < |s|
    ensures ExpandFrom(s, i) == Piece(s, i) + ExpandFrom(s, Next(s, i))
  {
    assert ExpandFrom(s, i) == Emit(s, i);
  }

  lemma PieceNone(s: string, i: nat)
    requires i < |s| && !GroupAt(s, i)
    ensures Piece(s, i) == [s[i]] && Next(s, i) == i + 1
  {
  }

  lemma PieceGroup(s: string, i: nat, j: nat, k: nat)
    requires i < |s| && GroupAt(s, i) && j == OpenAt(s, i) && k == CloseAt(s, i)
    ensures Piece(s, i) == Repeated(DigitsAt(s, i, j), s[j + 1..k]) && Next(s, i) == k + 1
  {
  }

  lemma ExpandStepNone(s: string, i: nat)
    requires i < |s| && !GroupAt(s, i)
    ensures ExpandFrom(s, i) == [s[i]] + ExpandFrom(s, i + 1)
  {
    ExpandStep(s, i);
    PieceNone(s, i);
  }

  lemma ExpandStepGroup(s: string, i: nat, j: nat, k: nat, tail: string)
    requires i < |s| && GroupAt(s, i) && j == OpenAt(s, i) && k == CloseAt(s, i)
    requires ExpandFrom(s, k + 1) == tail
    ensures ExpandFrom(s, i) == Repeated(DigitsAt(s, i, j), s[j + 1..k]) + tail
  {
    ExpandStep(s, i);
    PieceGroup(s, i, j, k);
  }

  /** No repeat group starts between i and e. */
  predicate NoGroupBetween(s: string, i: nat, e: nat)
    requires e <= |s|
  {
    forall m :: i <= m < e - 1 ==> !OpensGroup(s, m)
  }

  /** No group is found at i when the digit run there does not reach a '('
      before index e. */
  lemma NoGroupAt(s: string, i: nat, e: nat)
    requires i < e <= |s| && !IsDigit(s[e - 1]) && NoGroupBetween(s, i, e)
    ensures !GroupAt(s, i)
  {
    var j := OpenAt(s, i);
    DigitRunDigits(s, i);
    if i < j {
      assert IsDigit(s[j - 1]);
      if j < |s| - 1 {
        assert !OpensGroup(s, j - 1);
      }
    }
  }

  /** A character outside any group is copied, and the rest still holds
      no group start. */
  lemma ExpandPrefixHead(s: string, i: nat, e: nat)
    requires i < e <= |s| && !IsDigit(s[e - 1]) && NoGroupBetween(s, i, e)
    ensures ExpandFrom(s, i) == [s[i]] + ExpandFrom(s, i + 1)
  {
    NoGroupAt(s, i, e);
    ExpandStepNone(s, i);
  }

  /** A sequence of texts, each a character of s in front of the next,
      runs through s[i..e] to the text at e. */
  lemma {:induction false} CopiesThrough(s: string, i: nat, e: nat, f: nat -> string)
    requires i <= e <= |s| && forall m :: i <= m < e ==> f(m) == [s[m]] + f(m + 1)
    ensures f(i) == s[i..e] + f(e)
    decreases e - i
  {
    if i < e {
      CopiesThrough(s, i + 1, e, f);
      assert s[i..e] == [s[i]] + s[i + 1..e];
    } else {
      assert s[i..e] == [];
    }
  }

  /** A pass copies text in which no group starts, up to index e. */
  lemma ExpandPrefix(s: string, i: nat, e: nat)
    requires i <= e <= |s| && (i < e ==> !IsDigit(s[e - 1])) && NoGroupBetween(s, i, e)
    ensures ExpandFrom(s, i) == s[i..e] + ExpandFrom(s, e)
  {
    var f := (m: nat) => if m <= |s| then ExpandFrom(s, m) else [];
    forall m | i <= m < e
      ensures f(m) == [s[m]] + f(m + 1)
    {
      ExpandPrefixHead(s, m, e);
    }
    CopiesThrough(s, i, e, f);
  }

  lemma {:induction false} CloseFromTo(s: string, i: nat, k: nat)
    requires i <= k < |s| && s[k] == ')' && forall m :: i <= m < k ==> s[m] != ')'
    ensures IndexFrom(s, i, ')') == k
    decreases k - i
  {
    if i < k {
      CloseFromTo(s, i + 1, k);
    }
  }

  /** The text `n(body)q` with q holding no '(' is expanded in one pass. */
  lemma GroupPass(s: string, e: nat, j: nat, k: nat)
    requires e < j && j + 1 < k < |s| && (forall m :: e <= m < j ==> IsDigit(s[m])) && s[j] == '(' && s[k] == ')'
    requires forall m :: j < m < k ==> s[m] != ')'
    requires forall m :: k < m < |s| ==> s[m] != '('
    ensures ExpandFrom(s, e) == Repeated(DigitsAt(s, e, j), s[j + 1..k]) + s[k + 1..]
  {
    GroupFound(s, e, j, k);
    ExpandPlain(s, k + 1);
    ExpandStepGroup(s, e, j, k, s[k + 1..]);
  }

  lemma AppendSame<T>(x: seq<T>, a: seq<T>, y: seq<T>, z: seq<T>)
    requires x == a + y && y == z
    ensures x == a + z
  {
  }

  /** The substitution matches a digit run, a '(', a body without ')'
      and the ')' ending it. */
  lemma GroupFound(s: string, e: nat, j: nat, k: nat)
    requires e < j && j + 1 < k < |s| && (forall m :: e <= m < j ==> IsDigit(s[m])) && s[j] == '(' && s[k] == ')'
    requires forall m :: j < m < k ==> s[m] != ')'
    ensures GroupAt(s, e) && OpenAt(s, e) == j && CloseAt(s, e) == k
  {
    DigitRunAt(s, e, j);
    CloseFromTo(s, j + 1, k);
  }

  lemma {:induction false} DigitRunAt(s: string, i: nat, e: nat)
    requires i <= e < |s| && (forall m :: i <= m < e ==> IsDigit(s[m])) && !IsDigit(s[e])
    ensures DigitRun(s, i) == e - i
    decreases e - i
  {
    if i < e {
      DigitRunAt(s, i + 1, e);
    }
  }

  /** Characters that `upper()` leaves alone. */
  lemma UpperFixed(s: string)
    requires forall m :: 0 <= m < |s| ==> LayoutChar(s[m]) || s[m] == '(' || s[m] == ')'
    ensures Upper(s) == s
  {
  }

  lemma StripFixed(s: string)
    requires s != [] && !IsSpace(s[0]) && !IsSpace(s[|s| - 1])
    ensures Strip(s) == s
  {
    assert LStrip(s) == s;
  }

  /** Without a repeat group the loop of lines 26-29 makes no pass. */
  lemma ExpandNoGroup(s: string)
    requires !HasGroup(s)
    ensures Expand(s) == s
  {
  }

  /** Text that neither starts with '(' nor has whitespace at its ends is
      kept as it is by line 30. */
  lemma StripOuterFixed(s: string)
    requires s != [] && !IsSpace(s[0]) && !IsSpace(s[|s| - 1]) && s[0] != '('
    ensures StripOuter(s) == s
  {
    StripFixed(s);
  }

  lemma NoGroupStartPlain(s: string)
    requires forall m :: 0 <= m < |s| ==> LayoutChar(s[m])
    ensures NoGroupStart(s)
  {
    forall m | 0 <= m < |s| - 1
      ensures !OpensGroup(s, m)
    {
      assert LayoutChar(s[m + 1]);
    }
  }

  /** A layout of plain tokens is its own expansion: it holds no group and
      no enclosing parentheses. */
  lemma ExpandedPlain(s: string)
    requires s != [] && forall m :: 0 <= m < |s| ==> LayoutChar(s[m])
    ensures Expanded(s) == s
  {
    UpperFixed(s);
    NoGroupStartPlain(s);
    NoGroupFrom(s, 0);
    ExpandNoGroup(s);
    assert LayoutChar(s[0]) && LayoutChar(s[|s| - 1]);
    StripOuterFixed(s);
  }

  lemma ExpandedRendered(ws: seq<Written>)
    requires ws != [] && forall k :: 0 <= k < |ws| ==> WellWritten(ws[k])
    ensures Expanded(RenderAll(ws)) == RenderAll(ws)
  {
    RenderAllChars(ws);
    RenderAllHead(ws);
    ExpandedPlain(RenderAll(ws));
  }

  /** What `setFormat` extracts from a comma-joined list of well-formed
      tokens: one descriptor per token, in order. */
  lemma FieldsOfRendered(ws: seq<Written>, trim: bool)
    requires ws != [] && forall k :: 0 <= k < |ws| ==> WellWritten(ws[k])
    ensures ValidStart(Expanded(RenderAll(ws)))
    ensures FieldsOf(RenderAll(ws), trim) == Descriptors(TokensOf(ws), trim)
  {
    ExpandedRendered(ws);
    ValidRendered(ws);
    TokensOfRendered(ws);
  }

  lemma CompileNamed(format: string, names: string, trim: bool)
    requires ValidStart(Expanded(format)) && names != []
    requires |Split(names)| == FieldCount(FieldsOf(format, trim))
    ensures var fields := FieldsOf(format, trim);
      Compile(format, Some(names), trim)
        == Ok(Compiled(Upper(format), fields, Length(fields), FieldCount(fields), Some(Split(names))))
  {
  }

  lemma JoinWordsNonEmpty(names: seq<string>)
    requires names != [] && names[0] != []
    ensures Join(names, " ") != []
  {
    if |names| > 1 {
      assert Join(names, " ") == names[0] + " " + Join(names[1..], " ");
    }
  }

  /** A layout written as its tokens' texts joined by commas. */
  lemma {:induction false} RenderedAsJoin(ws: seq<Written>, texts: seq<string>)
    requires |ws| == |texts| > 0 && forall k :: 0 <= k < |ws| ==> Render(ws[k]) == texts[k]
    ensures RenderAll(ws) == Join(texts, ",")
    decreases |ws|
  {
    if |ws| > 1 {
      RenderedAsJoin(ws[1..], texts[1..]);
    }
  }

  /** The descriptors of a layout, token by token. */
  lemma DescriptorsAre(ws: seq<Written>, trim: bool, ds: seq<Descriptor>)
    requires |ws| == |ds| && forall k :: 0 <= k < |ws| ==> WellWritten(ws[k]) && DescriptorOf(TokenOf(ws[k]), trim) == ds[k]
    ensures Descriptors(TokensOf(ws), trim) == ds
  {
  }

  /** The descriptors of two runs of tokens written one after the other. */
  lemma DescriptorsJoin(a: seq<Written>, b: seq<Written>, trim: bool)
    requires forall k :: 0 <= k < |a| ==> WellWritten(a[k])
    requires forall k :: 0 <= k < |b| ==> WellWritten(b[k])
    ensures forall k :: 0 <= k < |a + b| ==> WellWritten((a + b)[k])
    ensures Descriptors(TokensOf(a + b), trim) == Descriptors(TokensOf(a), trim) + Descriptors(TokensOf(b), trim)
  {
    assert forall k :: 0 <= k < |b| ==> (a + b)[|a| + k] == b[k];
  }

  /** The object `Format(layout, ' '.join(names), trim)` built from a
      comma-joined list of well-formed tokens. */
  lemma CompileRendered(ws: seq<Written>, names: seq<string>, trim: bool)
    requires ws != [] && forall k :: 0 <= k < |ws| ==> WellWritten(ws[k])
    requires names != [] && forall k :: 0 <= k < |names| ==> IsWord(names[k])
    requires |names| == FieldCount(Descriptors(TokensOf(ws), trim))
    ensures var fields := Descriptors(TokensOf(ws), trim);
      Compile(RenderAll(ws), Some(Join(names, " ")), trim)
        == Ok(Compiled(RenderAll(ws), fields, Length(fields), FieldCount(fields), Some(names)))
  {
    RenderAllChars(ws);
    UpperFixed(RenderAll(ws));
    FieldsOfRendered(ws, trim);
    SplitJoin(names);
    JoinWordsNonEmpty(names);
    CompileNamed(RenderAll(ws), Join(names, " "), trim);
  }

  // ---------------------------------------------------------------------
  // Layouts with one repeat group: `(pre,n(body),post)`

  /** `n` copies of a list of tokens, one after another. */
  function WrittenCopies(n: nat, ws: seq<Written>): (r: seq<Written>)
    ensures (n > 0 && ws != []) ==> r != []
    ensures forall k :: 0 <= k < |r| ==> r[k] in ws
    decreases n
  {
    if n == 0 then [] else ws + WrittenCopies(n - 1, ws)
  }

  /** Rendering a concatenation joins the two renderings with a comma. */
  lemma {:induction false} RenderAllAppend(a: seq<Written>, b: seq<Written>)
    requires a != [] && b != []
    ensures RenderAll(a + b) == RenderAll(a) + ("," + RenderAll(b))
    decreases |a|
  {
    assert (a + b)[0] == a[0];
    if |a| == 1 {
      assert (a + b)[1..] == b;
    } else {
      assert (a + b)[1..] == a[1..] + b;
      RenderAllAppend(a[1..], b);
    }
  }

  /** The copies a group expands to are the rendering of the copied tokens. */
  lemma {:induction false} RepeatedRendered(n: nat, body: seq<Written>)
    requires n >= 1 && body != []
    ensures Repeated(n, RenderAll(body)) == RenderAll(WrittenCopies(n, body))
    decreases n
  {
    if n == 1 {
      assert WrittenCopies(1, body) == body;
    } else {
      RepeatedRendered(n - 1, body);
      RenderAllAppend(body, WrittenCopies(n - 1, body));
    }
  }

  /** Reading digits in place is `int` of the slice. */
  lemma {:induction false} DigitsAtSlice(s: string, i: nat, j: nat)
    requires i <= j <= |s| && AllDigits(s[i..j])
    ensures DigitsAt(s, i, j) == DigitsValue(s[i..j])
    decreases j - i
  {
    if i < j {
      assert s[i..j][..j - i - 1] == s[i..j - 1];
      assert s[i..j][j - i - 1] == s[j - 1];
      DigitsAtSlice(s, i, j - 1);
    }
  }

  lemma DigitsAtIs(s: string, i: nat, j: nat, d: string)
    requires i <= j <= |s| && s[i..j] == d && AllDigits(d)
    ensures DigitsAt(s, i, j) == DigitsValue(d)
  {
    DigitsAtSlice(s, i, j);
  }

  /** The search of line 26 finds the group whose digit is at g. */
  lemma {:induction false} HasGroupReach(s: string, i: nat, g: nat)
    requires i <= g && g + 2 < |s|
    requires IsDigit(s[g]) && s[g + 1] == '(' && s[g + 2] != ')' && IndexFrom(s, g + 2, ')') < |s|
    ensures HasGroupFrom(s, i)
    decreases g - i
  {
    if i < g {
      HasGroupReach(s, i + 1, g);
    }
  }

  /** The layout `(pre,n(body),post)` as written. */
  function GroupedText(pre: seq<Written>, digits: string, body: seq<Written>, post: seq<Written>): string {
    ("(" + RenderAll(pre) + ",") + (digits + "(" + RenderAll(body) + ")") + ("," + RenderAll(post) + ")")
  }

  /** The tokens `(pre,n(body),post)` expands to. */
  function GroupedTokens(pre: seq<Written>, digits: string, body: seq<Written>, post: seq<Written>): seq<Written>
    requires AllDigits(digits)
  {
    pre + WrittenCopies(DigitsValue(digits), body) + post
  }

  /** A layout `(A,n(B),C)` read by index: a '(' at 0, layout characters
      up to the ',' at e - 1, digits from e to j, the group's '(' at j and
      ')' at k, layout characters up to the final ')'. */
  predicate GroupedShape(s: string, e: nat, j: nat, k: nat) {
    && 1 < e < j && j + 1 < k && k + 2 < |s|
    && s[0] == '(' && s[e - 1] == ',' && s[j] == '(' && s[k] == ')' && s[|s| - 1] == ')'
    && (forall m :: 0 < m < e ==> LayoutChar(s[m]))
    && (forall m :: e <= m < j ==> IsDigit(s[m]))
    && (forall m :: j < m < k ==> LayoutChar(s[m]))
    && (forall m :: k < m < |s| - 1 ==> LayoutChar(s[m]))
  }

  lemma GroupedShapeUpper(s: string, e: nat, j: nat, k: nat)
    requires GroupedShape(s, e, j, k)
    ensures Upper(s) == s
  {
    assert forall m :: 0 <= m < |s| ==> LayoutChar(s[m]) || s[m] == '(' || s[m] == ')' by {
      forall m | 0 <= m < |s|
        ensures LayoutChar(s[m]) || s[m] == '(' || s[m] == ')'
      {
        if e <= m < j {
          assert IsDigit(s[m]);
        }
      }
    }
    UpperFixed(s);
  }

  lemma GroupedShapeFound(s: string, e: nat, j: nat, k: nat)
    requires GroupedShape(s, e, j, k)
    ensures HasGroup(s)
  {
    assert LayoutChar(s[j + 1]);
    CloseFromTo(s, j + 1, k);
    HasGroupReach(s, 0, j - 1);
  }

  lemma GroupedShapePass(s: string, e: nat, j: nat, k: nat)
    requires GroupedShape(s, e, j, k)
    ensures ExpandFrom(s, 0) == s[..e] + (Repeated(DigitsAt(s, e, j), s[j + 1..k]) + s[k + 1..])
  {
    assert NoGroupBetween(s, 0, e) by {
      forall m | 0 <= m < e - 1
        ensures !OpensGroup(s, m)
      {
        assert LayoutChar(s[m + 1]);
      }
    }
    ExpandPrefix(s, 0, e);
    GroupPass(s, e, j, k);
  }

  /** Where the parts of `h + d(b) + t` sit. */
  lemma GroupedSlices(s: string, h: string, d: string, b: string, t: string)
    requires s == h + (d + "(" + b + ")") + t
    ensures var e, j := |h|, |h| + |d|; var k := j + 1 + |b|;
      && |s| == k + 1 + |t| && s[j] == '(' && s[k] == ')'
      && s[..e] == h && s[e..j] == d && s[j + 1..k] == b && s[k + 1..] == t
      && (forall m :: 0 <= m < e ==> s[m] == h[m])
      && (forall m :: e <= m < j ==> s[m] == d[m - e])
      && (forall m :: j < m < k ==> s[m] == b[m - j - 1])
      && (forall m :: k < m < |s| ==> s[m] == t[m - k - 1])
  {
  }

  predicate PlainText(a: string) {
    a != [] && forall m :: 0 <= m < |a| ==> LayoutChar(a[m])
  }

  /** Every character of a rendered, non-empty token list is a layout
      character, and it is not empty. */
  lemma RenderedPlain(ws: seq<Written>)
    requires ws != [] && forall k :: 0 <= k < |ws| ==> WellWritten(ws[k])
    ensures PlainText(RenderAll(ws))
  {
    RenderAllChars(ws);
    RenderAllHead(ws);
  }

  /** `(a,d(b),c)` for plain a, b, c and digits d is kept by `upper()`,
      holds a group, and one pass replaces `d(b)` by the copies of b. */
  lemma GroupedTextPass(s: string, a: string, d: string, b: string, c: string)
    requires PlainText(a) && PlainText(b) && PlainText(c) && d != [] && AllDigits(d)
    requires s == ("(" + a + ",") + (d + "(" + b + ")") + ("," + c + ")")
    ensures Upper(s) == s && HasGroup(s)
    ensures ExpandFrom(s, 0) == ("(" + a + ",") + (Repeated(DigitsValue(d), b) + ("," + c + ")"))
  {
    var h, t := "(" + a + ",", "," + c + ")";
    var e := |h|;
    var j := e + |d|;
    var k := j + 1 + |b|;
    assert GroupedShape(s, e, j, k) && s[..e] == h && s[e..j] == d && s[j + 1..k] == b && s[k + 1..] == t by {
      GroupedSlices(s, h, d, b, t);
      assert forall m :: 0 < m < |h| ==> LayoutChar(h[m]);
      assert forall m :: 0 <= m < |t| - 1 ==> LayoutChar(t[m]);
    }
    GroupedShapeAll(s, e, j, k, h, d, b, t);
  }

  /** The well-formedness the grouped lemmas need. */
  predicate GroupedParts(pre: seq<Written>, digits: string, body: seq<Written>, post: seq<Written>) {
    && pre != [] && body != [] && post != []
    && (forall k :: 0 <= k < |pre| ==> WellWritten(pre[k]))
    && (forall k :: 0 <= k < |body| ==> WellWritten(body[k]))
    && (forall k :: 0 <= k < |post| ==> WellWritten(post[k]))
    && digits != [] && AllDigits(digits) && DigitsValue(digits) >= 1
  }

  lemma Bracketed(a: string, r: string, c: string)
    ensures ("(" + a + ",") + (r + ("," + c + ")")) == "(" + ((a + ("," + r)) + ("," + c)) + ")"
  {
  }

  /** A layout of the grouped shape is kept by `upper()`, holds a group,
      and one pass replaces the group by its copies. */
  lemma GroupedShapeAll(s: string, e: nat, j: nat, k: nat, h: string, d: string, b: string, t: string)
    requires GroupedShape(s, e, j, k) && AllDigits(d)
    requires s[..e] == h && s[e..j] == d && s[j + 1..k] == b && s[k + 1..] == t
    ensures Upper(s) == s && HasGroup(s)
    ensures ExpandFrom(s, 0) == h + (Repeated(DigitsValue(d), b) + t)
  {
    GroupedShapeUpper(s, e, j, k);
    GroupedShapeFound(s, e, j, k);
    GroupedShapePass(s, e, j, k);
    DigitsAtIs(s, e, j, d);
  }

  /** `upper()` keeps the layout, and one pass expands its group. */
  lemma GroupedPass(pre: seq<Written>, digits: string, body: seq<Written>, post: seq<Written>)
    requires GroupedParts(pre, digits, body, post)
    ensures var s := GroupedText(pre, digits, body, post);
      && Upper(s) == s && HasGroup(s)
      && ExpandFrom(s, 0) == ("(" + RenderAll(pre) + ",") + (Repeated(DigitsValue(digits), RenderAll(body)) + ("," + RenderAll(post) + ")"))
  {
    RenderedPlain(pre);
    RenderedPlain(body);
    RenderedPlain(post);
    GroupedTextPass(GroupedText(pre, digits, body, post), RenderAll(pre), digits, RenderAll(body), RenderAll(post));
  }

  /** The layout after one pass is the rendering of the expanded tokens,
      in parentheses. */
  lemma GroupedFlat(pre: seq<Written>, digits: string, body: seq<Written>, post: seq<Written>)
    requires GroupedParts(pre, digits, body, post)
    ensures var flat := RenderAll(GroupedTokens(pre, digits, body, post));
      ExpandFrom(GroupedText(pre, digits, body, post), 0) == "(" + flat + ")"
  {
    var n := DigitsValue(digits);
    var copies := WrittenCopies(n, body);
    var a, r, c := RenderAll(pre), RenderAll(copies), RenderAll(post);
    GroupedPass(pre, digits, body, post);
    RepeatedRendered(n, body);
    RenderAllAppend(pre, copies);
    RenderAllAppend(pre + copies, post);
    Bracketed(a, r, c);
  }

  /** The tokens of the expanded layout are well formed. */
  lemma GroupedTokensWell(pre: seq<Written>, digits: string, body: seq<Written>, post: seq<Written>)
    requires GroupedParts(pre, digits, body, post)
    ensures var ws := GroupedTokens(pre, digits, body, post);
      ws != [] && forall k :: 0 <= k < |ws| ==> WellWritten(ws[k])
  {
    var copies := WrittenCopies(DigitsValue(digits), body);
    assert forall k :: 0 <= k < |copies| ==> WellWritten(copies[k]);
  }

  /** Lines 26-30 turn `(pre,n(body),post)` into the comma-joined tokens
      of pre, n copies of body, and post. */
  lemma GroupedExpanded(pre: seq<Written>, digits: string, body: seq<Written>, post: seq<Written>)
    requires GroupedParts(pre, digits, body, post)
    ensures Expanded(GroupedText(pre, digits, body, post)) == RenderAll(GroupedTokens(pre, digits, body, post))
  {
    var s := GroupedText(pre, digits, body, post);
    var ws := GroupedTokens(pre, digits, body, post);
    GroupedPass(pre, digits, body, post);
    GroupedFlat(pre, digits, body, post);
    GroupedTokensWell(pre, digits, body, post);
    RenderedPlain(ws);
    BracketedPlain("(" + RenderAll(ws) + ")", RenderAll(ws));
  }

  /** A plain layout in parentheses holds no group, and line 30 drops the
      parentheses. */
  lemma BracketedPlain(r: string, flat: string)
    requires PlainText(flat) && r == "(" + flat + ")"
    ensures Expand(r) == r && StripOuter(r) == flat
  {
    assert NoGroupStart(r) by {
      forall m | 0 <= m < |r| - 1
        ensures !OpensGroup(r, m)
      {
        if m + 1 < |r| - 1 {
          assert r[m + 1] == flat[m];
        }
      }
    }
    NoGroupFrom(r, 0);
    ExpandNoGroup(r);
    StripFixed(r);
    assert r[1..|r| - 1] == flat;
    assert '\n' !in flat by {
      assert forall m :: 0 <= m < |flat| ==> flat[m] != '\n';
    }
  }

  /** What `setFormat` extracts from `(pre,n(body),post)`: one descriptor
      per token of the expansion, in order. */
  lemma GroupedFields(pre: seq<Written>, digits: string, body: seq<Written>, post: seq<Written>, trim: bool)
    requires GroupedParts(pre, digits, body, post)
    ensures var ws := GroupedTokens(pre, digits, body, post);
      && Upper(GroupedText(pre, digits, body, post)) == GroupedText(pre, digits, body, post)
      && ValidStart(Expanded(GroupedText(pre, digits, body, post)))
      && FieldsOf(GroupedText(pre, digits, body, post), trim) == Descriptors(TokensOf(ws), trim)
  {
    var ws := GroupedTokens(pre, digits, body, post);
    GroupedPass(pre, digits, body, post);
    GroupedExpanded(pre, digits, body, post);
    GroupedTokensWell(pre, digits, body, post);
    ValidRendered(ws);
    TokensOfRendered(ws);
  }
}
