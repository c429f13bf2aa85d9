/** The `Residuals` reader of Residuals.py up to the end of its station
    table: the header items before the table, the heading that ends them,
    the station lines with their numbering and code/name split, and the
    object whose attributes the constructor fills in. */
module Residuals {
  import opened Base
  import opened Text
  import opened FortranLayout
  import opened FortranDecode
  import opened Fortran
  import opened ResidualLines
  import Util

  // ---------------------------------------------------------------------
  // `re.match(r'^Num\s+Station\s+1', l)` (line 26)

  /** The heading of the station table, which ends the header. */
  predicate StationHeading(l: string) {
    StartsWith(l, "Num") && AfterNum(l[3..])
  }

  /** After "Num": blanks, then "Station". A shorter run of blanks would
      leave a blank where the "S" must be, so the greedy run decides. */
  predicate AfterNum(t: string) {
    var a := Util.SpaceRun(t, 0);
    a > 0 && StartsWith(t[a..], "Station") && AfterStation(t[a + 7..])
  }

  /** After "Station": blanks, then "1". */
  predicate AfterStation(u: string) {
    var b := Util.SpaceRun(u, 0);
    0 < b < |u| && u[b] == '1'
  }

  /** Every line made of "Num", blanks, "Station", blanks and "1" is a
      heading, whatever follows. */
  lemma HeadingOf(gap1: string, gap2: string, rest: string)
    requires AllSpace(gap1) && gap1 != [] && AllSpace(gap2) && gap2 != []
    ensures StationHeading("Num" + (gap1 + ("Station" + (gap2 + ("1" + rest)))))
  {
    var u := gap2 + ("1" + rest);
    var t := gap1 + ("Station" + u);
    var l := "Num" + t;
    Util.SpaceRunFront(gap1, "Station" + u);
    assert t[|gap1|..][..7] == "Station" && t[|gap1| + 7..] == u;
    Util.SpaceRunFront(gap2, "1" + rest);
    assert l[3..] == t;
  }

  /** Conversely, every heading is such a line. */
  lemma HeadingShape(l: string)
    requires StationHeading(l)
    ensures exists gap1, gap2, rest ::
      AllSpace(gap1) && gap1 != [] && AllSpace(gap2) && gap2 != [] &&
      l == "Num" + (gap1 + ("Station" + (gap2 + ("1" + rest))))
  {
    var t := l[3..];
    var gap1, t1 := Util.SpaceRunSplit(t);
    var u := t1[7..];
    var gap2, u1 := Util.SpaceRunSplit(u);
    var rest := u1[1..];
    HeadingAssemble(l, t, gap1, t1, u, gap2, u1, rest);
  }

  lemma HeadingAssemble(l: string, t: string, gap1: string, t1: string, u: string, gap2: string, u1: string, rest: string)
    requires StartsWith(l, "Num") && t == l[3..] && t == gap1 + t1 && StartsWith(t1, "Station") && u == t1[7..]
    requires u == gap2 + u1 && u1 != [] && u1[0] == '1' && rest == u1[1..]
    ensures l == "Num" + (gap1 + ("Station" + (gap2 + ("1" + rest))))
  {
    assert u1 == "1" + rest;
    assert t1 == "Station" + u;
    assert l == "Num" + t;
  }

  // ---------------------------------------------------------------------
  // `re.match(r'^\s*(.*)\:\s+(.*?)\s*$', l)` (line 28)

  /** Position q of `r`, the line after its leading whitespace, can be the
      colon of the pattern: no line break before it (`.` stops at one),
      whitespace after it, and no line break inside the value once its
      surrounding whitespace is dropped. */
  predicate ItemAt(r: string, q: nat) {
    q + 1 < |r| && r[q] == ':' && '\n' !in r[..q] && IsSpace(r[q + 1]) && '\n' !in Strip(r[q + 1..])
  }

  /** The greatest such position below p: the greedy item group tries the
      longest item first. */
  function LastItemColon(r: string, p: nat): (q: Option<nat>)
    requires p <= |r|
    ensures q.Some? ==> q.value < p && ItemAt(r, q.value)
    decreases p
  {
    if p == 0 then None
    else if ItemAt(r, p - 1) then Some(p - 1)
    else LastItemColon(r, p - 1)
  }

  /** No position past the one found qualifies, and none at all when
      nothing is found. */
  lemma {:induction false} LastItemColonIs(r: string, p: nat)
    requires p <= |r|
    ensures LastItemColon(r, p).None? ==> forall q :: 0 <= q < p ==> !ItemAt(r, q)
    ensures LastItemColon(r, p).Some? ==> forall q :: LastItemColon(r, p).value < q < p ==> !ItemAt(r, q)
    decreases p
  {
    if p > 0 && !ItemAt(r, p - 1) {
      LastItemColonIs(r, p - 1);
    }
  }

  /** A qualifying colon with no colon after it below p is the one found. */
  lemma {:induction false} LastItemColonFinds(r: string, p: nat, q: nat)
    requires q < p <= |r| && ItemAt(r, q) && forall j :: q < j < p ==> r[j] != ':'
    ensures LastItemColon(r, p) == Some(q)
    decreases p
  {
    if p - 1 != q {
      LastItemColonFinds(r, p - 1, q);
    }
  }

  /** The item and the value of a header line, when the pattern matches:
      the item is everything between the leading whitespace and the
      colon; the value drops the whitespace on both sides (the greedy
      blanks after the colon, the lazy value and the trailing blanks). */
  function HeaderItem(l: string): (m: Option<(string, string)>)
    ensures m.Some? ==> '\n' !in m.value.0 && '\n' !in m.value.1
  {
    var r := LStrip(l);
    var q := LastItemColon(r, |r|);
    if q.None? then None else Some((r[..q.value], Strip(r[q.value + 1..])))
  }

  /** The pattern fails exactly when no position qualifies. */
  lemma ItemNone(l: string)
    ensures HeaderItem(l).None? <==> forall q :: 0 <= q < |LStrip(l)| ==> !ItemAt(LStrip(l), q)
  {
    LastItemColonIs(LStrip(l), |LStrip(l)|);
  }

  /** Header lines as written: indentation, the item, a colon, blanks,
      the value and trailing whitespace. The item may hold colons of its
      own; the value may not, or the last colon that qualifies would
      start it. */
  lemma ItemRoundTrip(indent: string, item: string, gap: string, value: string, trail: string)
    requires AllSpace(indent) && (item == [] || !IsSpace(item[0])) && '\n' !in item
    requires AllSpace(gap) && gap != [] && AllSpace(trail)
    requires ':' !in value && '\n' !in value && (value == [] || (!IsSpace(value[0]) && !IsSpace(value[|value| - 1])))
    ensures HeaderItem(indent + (item + (":" + (gap + (value + trail))))) == Some((item, value))
  {
    var w := gap + (value + trail);
    var r := item + (":" + w);
    LStripFront(indent, r);
    StripAround(gap, value, trail);
    ColonAt(item, w);
    assert ':' !in w;
    ColonsAfter(item, w);
    LastItemColonFinds(r, |r|, |item|);
  }

  /** The colon that joins an item to the rest of its line qualifies. */
  lemma ColonAt(item: string, w: string)
    requires '\n' !in item && w != [] && IsSpace(w[0]) && '\n' !in Strip(w)
    ensures ItemAt(item + (":" + w), |item|)
    ensures (item + (":" + w))[..|item|] == item && (item + (":" + w))[|item| + 1..] == w
  {
    var r := item + (":" + w);
    assert r[..|item|] == item && r[|item| + 1..] == w;
  }

  /** No colon follows the one that joins an item to a colon-free rest. */
  lemma ColonsAfter(item: string, w: string)
    requires ':' !in w
    ensures forall j :: |item| < j < |item + (":" + w)| ==> (item + (":" + w))[j] != ':'
  {
    var r := item + (":" + w);
    forall j | |item| < j < |r|
      ensures r[j] != ':'
    {
      assert r[j] == w[j - |item| - 1];
    }
  }

  /** `lstrip` drops exactly a run of whitespace in front of a part that
      does not start with whitespace. */
  lemma {:induction false} LStripFront(w: string, rest: string)
    requires AllSpace(w) && (rest == [] || !IsSpace(rest[0]))
    ensures LStrip(w + rest) == rest
    decreases |w|
  {
    if w == [] {
      assert w + rest == rest;
    } else {
      assert (w + rest)[1..] == w[1..] + rest;
      LStripFront(w[1..], rest);
    }
  }

  /** `rstrip` drops exactly a run of whitespace behind a part that does
      not end with whitespace. */
  lemma {:induction false} RStripBack(v: string, w: string)
    requires AllSpace(w) && (v == [] || !IsSpace(v[|v| - 1]))
    ensures RStrip(v + w) == v
    decreases |w|
  {
    if w == [] {
      assert v + w == v;
    } else {
      var w' := w[..|w| - 1];
      assert (v + w)[..|v + w| - 1] == v + w';
      RStripBack(v, w');
    }
  }

  /** `strip` of a part between two runs of whitespace. */
  lemma StripAround(w1: string, v: string, w2: string)
    requires AllSpace(w1) && AllSpace(w2)
    requires v == [] || (!IsSpace(v[0]) && !IsSpace(v[|v| - 1]))
    ensures Strip(w1 + (v + w2)) == v
  {
    if v == [] {
      assert w1 + (v + w2) == w1 + w2;
      LStripAllSpace(w1 + w2);
    } else {
      LStripFront(w1, v + w2);
      RStripBack(v, w2);
    }
  }

  // ---------------------------------------------------------------------
  // The header (lines 17-20 and 24-39)

  const TypeItem := "Type of residual file"
  const FormatItem := "Format of residual records"
  const ProgramItem := "Program created the file"
  const LevelItem := "Difference level of observations"

  /** The attributes the header sets. `srccprogram` is the default of line
      19 under the name written there; `srcprogram`, which line 37 sets,
      exists only once its item has been read (None: no such attribute). */
  datatype Header = Header(
    filetype: Option<string>, fileformat: Option<string>,
    srccprogram: string, srcprogram: Option<string>, differencing: string)

  /** Lines 17-20. */
  const InitialHeader := Header(None, None, "PROGRAM", None, "")

  /** The value a line gives `item`, if it is a header line for it. */
  function ItemValue(l: string, item: string): Option<string> {
    var m := HeaderItem(l);
    if m.Some? && m.value.0 == item then Some(m.value.1) else None
  }

  /** One header line read: only the four exact item texts set an
      attribute; any other line leaves the header as it is. */
  function Apply(h: Header, l: string): Header {
    if ItemValue(l, TypeItem).Some? then h.(filetype := ItemValue(l, TypeItem))
    else if ItemValue(l, FormatItem).Some? then h.(fileformat := ItemValue(l, FormatItem))
    else if ItemValue(l, ProgramItem).Some? then h.(srcprogram := ItemValue(l, ProgramItem))
    else if ItemValue(l, LevelItem).Some? then h.(differencing := ItemValue(l, LevelItem).value)
    else h
  }

  /** The header after the lines `ls`, read in order from `h`. */
  function HeaderFrom(h: Header, ls: seq<string>): Header
    decreases |ls|
  {
    if ls == [] then h else Apply(HeaderFrom(h, ls[..|ls| - 1]), ls[|ls| - 1])
  }

  /** The value of the last line of `ls` that is a header line for `item`. */
  function LastValue(ls: seq<string>, item: string): Option<string>
    decreases |ls|
  {
    if ls == [] then None
    else if ItemValue(ls[|ls| - 1], item).Some? then ItemValue(ls[|ls| - 1], item)
    else LastValue(ls[..|ls| - 1], item)
  }

  /** Each attribute holds the value of the last line for its item, or
      its default when there is none: a later item overwrites an earlier
      one, and the misspelt default is never overwritten. */
  lemma {:induction false} HeaderFields(ls: seq<string>)
    ensures var h := HeaderFrom(InitialHeader, ls);
      && h.filetype == LastValue(ls, TypeItem)
      && h.fileformat == LastValue(ls, FormatItem)
      && h.srcprogram == LastValue(ls, ProgramItem)
      && h.srccprogram == "PROGRAM"
      && h.differencing == (if LastValue(ls, LevelItem).Some? then LastValue(ls, LevelItem).value else "")
    decreases |ls|
  {
    if ls != [] {
      HeaderFields(ls[..|ls| - 1]);
      ItemsDiffer(ls[|ls| - 1]);
    }
  }

  /** A line is a header line for one item at most. */
  lemma ItemsDiffer(l: string)
    ensures ItemValue(l, TypeItem).Some? ==>
      ItemValue(l, FormatItem).None? && ItemValue(l, ProgramItem).None? && ItemValue(l, LevelItem).None?
    ensures ItemValue(l, FormatItem).Some? ==> ItemValue(l, ProgramItem).None? && ItemValue(l, LevelItem).None?
    ensures ItemValue(l, ProgramItem).Some? ==> ItemValue(l, LevelItem).None?
  {
    assert TypeItem[0] == 'T' && FormatItem[0] == 'F' && ProgramItem[0] == 'P' && LevelItem[0] == 'D';
  }

  /** No value exactly when no line is a header line for the item. */
  lemma {:induction false} LastValueNone(ls: seq<string>, item: string)
    ensures LastValue(ls, item).None? <==> forall k :: 0 <= k < |ls| ==> ItemValue(ls[k], item).None?
    decreases |ls|
  {
    if ls != [] {
      var init := ls[..|ls| - 1];
      LastValueNone(init, item);
      assert forall k :: 0 <= k < |init| ==> init[k] == ls[k];
    }
  }

  /** The line for an item that no later line repeats gives its value. */
  lemma {:induction false} LastValueLater(before: seq<string>, l: string, after: seq<string>, item: string)
    requires ItemValue(l, item).Some?
    requires forall k :: 0 <= k < |after| ==> ItemValue(after[k], item).None?
    ensures LastValue(before + [l] + after, item) == ItemValue(l, item)
    decreases |after|
  {
    var ls := before + [l] + after;
    if after == [] {
      assert ls[..|ls| - 1] == before && ls[|ls| - 1] == l;
    } else {
      var init := after[..|after| - 1];
      assert ls[..|ls| - 1] == before + [l] + init && ls[|ls| - 1] == after[|after| - 1];
      LastValueLater(before, l, init, item);
    }
  }

  // ---------------------------------------------------------------------
  // The header loop (lines 24-27)

  /** Lines 24-27 as written, run for at most `fuel` iterations from the
      k-th `readline`: the index of the heading, or None while the loop
      is still running. Past the end of the file `readline` returns "",
      which is never a heading. */
  function WrittenScan(ls: seq<string>, k: nat, fuel: nat): Option<nat>
    decreases fuel
  {
    if fuel == 0 then None
    else if StationHeading(LineAt(ls, k)) then Some(k)
    else WrittenScan(ls, k + 1, fuel - 1)
  }

  /** A file without a heading keeps the loop as written running however
      long it runs: the loop never ends. */
  lemma {:induction false} WrittenScanNeverStops(ls: seq<string>, k: nat, fuel: nat)
    requires forall j :: 0 <= j < |ls| ==> !StationHeading(ls[j])
    ensures WrittenScan(ls, k, fuel).None?
    decreases fuel
  {
    if fuel > 0 {
      assert !StationHeading(LineAt(ls, k));
      WrittenScanNeverStops(ls, k + 1, fuel - 1);
    }
  }

  /** The scan that ends at the end of the file: the index of the first
      heading at or after k, or |ls| when there is none. */
  function HeadingFrom(ls: seq<string>, k: nat): (e: nat)
    requires k <= |ls|
    ensures k <= e <= |ls| && (e < |ls| ==> StationHeading(ls[e]))
    decreases |ls| - k
  {
    if k == |ls| || StationHeading(ls[k]) then k else HeadingFrom(ls, k + 1)
  }

  /** No heading comes before the one found. */
  lemma {:induction false} HeadingFromBefore(ls: seq<string>, k: nat)
    requires k <= |ls|
    ensures forall j :: k <= j < HeadingFrom(ls, k) ==> !StationHeading(ls[j])
    decreases |ls| - k
  {
    if k < |ls| && !StationHeading(ls[k]) {
      HeadingFromBefore(ls, k + 1);
    }
  }

  function HeadingAt(ls: seq<string>): (e: nat)
    ensures e <= |ls|
  {
    HeadingFrom(ls, 0)
  }

  /** Where the file has a heading, the loop as written stops at the same
      line as the scan that ends at the end of the file. */
  lemma {:induction false} WrittenScanFinds(ls: seq<string>, k: nat)
    requires k <= HeadingAt(ls) < |ls| && HeadingFrom(ls, k) == HeadingAt(ls)
    ensures WrittenScan(ls, k, HeadingAt(ls) - k + 1) == Some(HeadingAt(ls))
    decreases HeadingAt(ls) - k
  {
    if k < HeadingAt(ls) {
      WrittenScanFinds(ls, k + 1);
    }
  }

  // ---------------------------------------------------------------------
  // The station table (lines 40-56)

  /** The first line at or after k that `not l.strip()` finds blank, or
      |ls|: past the end of the file `readline` returns "", which is blank
      too. */
  function TableEnd(ls: seq<string>, k: nat): (e: nat)
    requires k <= |ls|
    ensures k <= e <= |ls| && (e < |ls| ==> Strip(ls[e]) == [])
    decreases |ls| - k
  {
    if k == |ls| || Strip(ls[k]) == [] then k else TableEnd(ls, k + 1)
  }

  /** No blank line comes before the one found. */
  lemma {:induction false} TableEndBefore(ls: seq<string>, k: nat)
    requires k <= |ls|
    ensures forall j :: k <= j < TableEnd(ls, k) ==> Strip(ls[j]) != []
    decreases |ls| - k
  {
    if k < |ls| && Strip(ls[k]) != [] {
      TableEndBefore(ls, k + 1);
    }
  }

  /** The station lines of a table whose first line is at `start`. */
  function TableRows(ls: seq<string>, start: nat): seq<string>
    requires start <= |ls|
  {
    ls[start..TableEnd(ls, start)]
  }

  /** The table is the run of lines that are not all whitespace, ended by
      one that is or by the end of the file. */
  lemma TableRowsAre(ls: seq<string>, start: nat)
    requires start <= |ls|
    ensures var rows := TableRows(ls, start);
      && (forall j :: 0 <= j < |rows| ==> !AllSpace(rows[j]))
      && (start + |rows| < |ls| ==> AllSpace(ls[start + |rows|]))
  {
    var e := TableEnd(ls, start);
    TableEndBefore(ls, start);
    forall j | start <= j < e
      ensures !AllSpace(ls[j])
    {
      StripEmptyIffBlank(ls[j]);
    }
    if e < |ls| {
      StripEmptyIffBlank(ls[e]);
    }
  }

  /** Python 2 `/` on integers: the quotient rounded down. */
  function FloorDiv(a: int, b: int): (q: int)
    requires b != 0
    ensures b > 0 ==> b * q <= a < b * q + b
    ensures b < 0 ==> b * q + b < a <= b * q
  {
    if b > 0 then a / b
    else
      var q := (-a) / (-b);
      assert (-b) * q <= -a < (-b) * q + (-b);
      q
  }

  /** Index of the first `c` in `s`, or |s|. */
  function FirstIndex(s: string, c: char): (i: nat)
    ensures i <= |s| && (i < |s| ==> s[i] == c)
    decreases |s|
  {
    if s == [] || s[0] == c then 0 else 1 + FirstIndex(s[1..], c)
  }

  /** No `c` comes before the one found. */
  lemma {:induction false} FirstIndexClear(s: string, c: char)
    ensures c !in s[..FirstIndex(s, c)]
    decreases |s|
  {
    if s != [] && s[0] != c {
      FirstIndexClear(s[1..], c);
      assert s[..FirstIndex(s, c)] == [s[0]] + s[1..][..FirstIndex(s[1..], c)];
    }
  }

  /** In a string that starts with a part free of `c` and then `c`, the
      first `c` ends that part. */
  lemma {:induction false} FirstIndexFront(a: string, c: char, rest: string)
    requires c !in a && rest != [] && rest[0] == c
    ensures FirstIndex(a + rest, c) == |a|
    decreases |a|
  {
    if a == [] {
      assert a + rest == rest;
    } else {
      assert (a + rest)[1..] == a[1..] + rest;
      FirstIndexFront(a[1..], c, rest);
    }
  }

  /** `a, b = s.split(c, 1)`: the text before the first `c` and the text
      after it, or None when `s` holds no `c`, where unpacking a single
      part raises. */
  function SplitOn(s: string, c: char): Option<(string, string)> {
    var i := FirstIndex(s, c);
    if i == |s| then None else Some((s[..i], s[i + 1..]))
  }

  /** The split fails exactly when there is no separator; otherwise it
      cuts `s` at its first one. */
  lemma SplitOnIs(s: string, c: char)
    ensures SplitOn(s, c).None? <==> c !in s
    ensures SplitOn(s, c).Some? ==>
      s == SplitOn(s, c).value.0 + [c] + SplitOn(s, c).value.1 && c !in SplitOn(s, c).value.0
  {
    var i := FirstIndex(s, c);
    FirstIndexClear(s, c);
    if i == |s| {
      assert s[..i] == s;
    } else {
      assert s == s[..i] + [c] + s[i + 1..];
    }
  }

  /** Splitting two parts joined at a separator the first does not hold
      gives them back. */
  lemma SplitOnOf(a: string, c: char, b: string)
    requires c !in a
    ensures SplitOn(a + [c] + b, c) == Some((a, b))
  {
    var s := a + [c] + b;
    assert s == a + ([c] + b);
    FirstIndexFront(a, c, [c] + b);
    assert s[..|a|] == a && s[|a| + 1..] == b;
  }

  /** The `Line` record of line 9, one per station line. */
  datatype Line = Line(num: int, code1: string, code2: string, st1: string, st2: string,
                       nf: int, offset: int, period: int)

  /** `Line.code` (line 10): the two station codes joined by a colon, or
      the first alone when the second is empty. */
  function Code(l: Line): string {
    if l.code2 != [] then l.code1 + ":" + l.code2 else l.code1
  }

  /** The code is the first station code alone exactly when the second is
      empty; otherwise, when the first holds no colon, splitting the code
      at its first colon gives both back. */
  lemma CodeParts(l: Line)
    ensures Code(l) == l.code1 <==> l.code2 == []
    ensures l.code2 != [] && ':' !in l.code1 ==> SplitOn(Code(l), ':') == Some((l.code1, l.code2))
  {
    if l.code2 != [] {
      assert |Code(l)| == |l.code1| + 1 + |l.code2|;
      if ':' !in l.code1 {
        SplitOnOf(l.code1, ':', l.code2);
      }
    }
  }

  /** The seconds of the day a station line's clock fields give. */
  function Clock(f: StationFields): int {
    f.hour * 3600 + f.min * 60 + f.sec
  }

  /** Lines 50-56 on the values of a decoded station line that must carry
      number n: the offset's division, the numbering check, then each
      station field split at its first space into a code and a name. */
  function FromFields(f: StationFields, n: int, path: string): (r: Result<Line>)
    ensures r.Ok? ==> r.value.num == n
  {
    if f.period == 0 then Err(ZeroPeriod)
    else if f.num != n then Err(StationNumbers(path))
    else
      var s1, s2 := SplitOn(f.st1, ' '), SplitOn(f.st2, ' ');
      if s1.None? then Err(BadStationField(f.st1))
      else if s2.None? then Err(BadStationField(f.st2))
      else Ok(Line(f.num, s1.value.0, s2.value.0, Strip(s1.value.1), Strip(s2.value.1),
                   f.nf, FloorDiv(Clock(f), f.period), f.period))
  }

  /** The checks of lines 50-55 in the order they run, and the record a
      line that passes them makes: each station field is its code, one
      space and the untrimmed name; the codes hold no space; the offset is
      the clock divided by the period, rounded down. */
  lemma FromFieldsIs(f: StationFields, n: int, path: string)
    ensures var r := FromFields(f, n, path);
      && (r.Ok? <==> f.period != 0 && f.num == n && ' ' in f.st1 && ' ' in f.st2)
      && (f.period == 0 ==> r == Err(ZeroPeriod))
      && (f.period != 0 && f.num != n ==> r == Err(StationNumbers(path)))
      && (f.period != 0 && f.num == n && ' ' !in f.st1 ==> r == Err(BadStationField(f.st1)))
      && (f.period != 0 && f.num == n && ' ' in f.st1 && ' ' !in f.st2 ==> r == Err(BadStationField(f.st2)))
    ensures var r := FromFields(f, n, path);
      r.Ok? ==>
        && r.value.nf == f.nf && r.value.period == f.period
        && r.value.offset == FloorDiv(Clock(f), f.period)
        && ' ' !in r.value.code1 && ' ' !in r.value.code2
        && (exists name1 :: f.st1 == r.value.code1 + " " + name1 && r.value.st1 == Strip(name1))
        && (exists name2 :: f.st2 == r.value.code2 + " " + name2 && r.value.st2 == Strip(name2))
  {
    SplitOnIs(f.st1, ' ');
    SplitOnIs(f.st2, ' ');
  }

  /** `fmt.read(l)` and the checks on its values, for the table's n-th
      line. */
  function StationLine(l: string, n: int, path: string): (r: Result<Line>)
    ensures r.Ok? ==> r.value.num == n
  {
    StationTyped(l);
    var d := DecodeLine(Layout(), l);
    if d.Err? then Err(d.error) else FromFields(AsFields(d.value), n, path)
  }

  /** A station line that reads carries its number in its first three
      columns, and its two station fields are its columns 6-23 and
      24-41. */
  lemma StationLineColumns(l: string, n: int, path: string)
    requires StationLine(l, n, path).Ok?
    ensures var line, r := Pad(l, 91), StationLine(l, n, path).value;
      && ParseInt(line[0..3]) == Some(n)
      && (exists name1 :: line[5..23] == r.code1 + " " + name1 && r.st1 == Strip(name1))
      && (exists name2 :: line[23..41] == r.code2 + " " + name2 && r.st2 == Strip(name2))
  {
    StationFieldsAre(l);
    FromFieldsIs(AsFields(DecodeLine(Layout(), l).value), n, path);
  }

  /** The loop of lines 45-56 over the table's lines, with `step(l, n)`
      the work on line `l` when it must carry number n: the k-th line must
      carry k + 1 (`len(lines)` counts the leading None), and the first
      line that fails ends the loop with its exception. */
  function Table(rows: seq<string>, step: (string, int) -> Result<Line>): (r: Result<seq<Line>>)
    ensures r.Ok? ==> |r.value| == |rows|
    decreases |rows|
  {
    if rows == [] then Ok([])
    else
      var prev := Table(rows[..|rows| - 1], step);
      if prev.Err? then prev
      else
        var line := step(rows[|rows| - 1], |rows|);
        if line.Err? then Err(line.error) else Ok(prev.value + [line.value])
  }

  /** The table reads exactly when every line does, as the line of its
      position, and its k-th record is then that line's. */
  lemma {:induction false} TableOk(rows: seq<string>, step: (string, int) -> Result<Line>)
    ensures Table(rows, step).Ok? <==> forall k :: 0 <= k < |rows| ==> step(rows[k], k + 1).Ok?
    ensures Table(rows, step).Ok? ==> forall k :: 0 <= k < |rows| ==> Table(rows, step).value[k] == step(rows[k], k + 1).value
    decreases |rows|
  {
    if rows != [] {
      var init := rows[..|rows| - 1];
      TableOk(init, step);
      assert forall k :: 0 <= k < |init| ==> init[k] == rows[k];
    }
  }

  /** A table that fails raises the exception of its first failing line. */
  lemma {:induction false} TableErr(rows: seq<string>, step: (string, int) -> Result<Line>)
    ensures Table(rows, step).Err? ==>
      exists k :: 0 <= k < |rows| && step(rows[k], k + 1) == Err(Table(rows, step).error)
        && forall j :: 0 <= j < k ==> step(rows[j], j + 1).Ok?
    decreases |rows|
  {
    if rows != [] && Table(rows, step).Err? {
      var init := rows[..|rows| - 1];
      assert forall k :: 0 <= k < |init| ==> init[k] == rows[k];
      if Table(init, step).Err? {
        TableErr(init, step);
      } else {
        TableOk(init, step);
      }
    }
  }

  /** Lines after a failing one change nothing: the loop has ended. */
  lemma {:induction false} TableKeepsError(rows: seq<string>, more: seq<string>, step: (string, int) -> Result<Line>)
    requires Table(rows, step).Err?
    ensures Table(rows + more, step) == Table(rows, step)
    decreases |more|
  {
    if more == [] {
      assert rows + more == rows;
    } else {
      var init := more[..|more| - 1];
      assert (rows + more)[..|rows + more| - 1] == rows + init;
      TableKeepsError(rows, init, step);
    }
  }

  /** The station table of the file at `path`. */
  function Stations(rows: seq<string>, path: string): (r: Result<seq<Line>>)
    ensures r.Ok? ==> |r.value| == |rows|
  {
    Table(rows, (l: string, n: int) => StationLine(l, n, path))
  }

  /** The table reads exactly when every line does, as the line of its
      position. */
  lemma StationsOk(rows: seq<string>, path: string)
    ensures Stations(rows, path).Ok? <==> forall k :: 0 <= k < |rows| ==> StationLine(rows[k], k + 1, path).Ok?
  {
    TableOk(rows, (l: string, n: int) => StationLine(l, n, path));
  }

  /** The k-th record of a table that reads is the line's of position k,
      numbered k + 1 (`lines[1:]`, line 79, drops the leading None). */
  lemma StationsNumbered(rows: seq<string>, path: string)
    ensures Stations(rows, path).Ok? ==> forall k :: 0 <= k < |rows| ==>
      StationLine(rows[k], k + 1, path) == Ok(Stations(rows, path).value[k])
      && Stations(rows, path).value[k].num == k + 1
  {
    var step := (l: string, n: int) => StationLine(l, n, path);
    if Table(rows, step).Ok? {
      TableNumbered(rows, step);
    }
  }

  /** Records made by a step that numbers them as it is told stand in
      table order. */
  lemma TableNumbered(rows: seq<string>, step: (string, int) -> Result<Line>)
    requires Table(rows, step).Ok?
    requires forall l, n :: step(l, n).Ok? ==> step(l, n).value.num == n
    ensures forall k :: 0 <= k < |rows| ==>
      step(rows[k], k + 1) == Ok(Table(rows, step).value[k]) && Table(rows, step).value[k].num == k + 1
  {
    TableOk(rows, step);
  }

  /** A table that fails raises the exception of its first failing line. */
  lemma StationsErr(rows: seq<string>, path: string)
    ensures Stations(rows, path).Err? ==>
      exists k :: 0 <= k < |rows| && StationLine(rows[k], k + 1, path) == Err(Stations(rows, path).error)
        && forall j :: 0 <= j < k ==> StationLine(rows[j], j + 1, path).Ok?
  {
    TableErr(rows, (l: string, n: int) => StationLine(l, n, path));
  }

  /** A decoded station line whose number is not its position raises the
      numbering error of line 53, once the lines before it have been read
      and its period is not zero. */
  lemma Misnumbered(rows: seq<string>, l: string, path: string)
    requires Stations(rows, path).Ok?
    ensures WellFormed(Layout())
    ensures var d := DecodeLine(Layout(), l);
      d.Ok? && StationRecord(d.value) && AsFields(d.value).period != 0 && AsFields(d.value).num != |rows| + 1
      ==> Stations(rows + [l], path) == Err(StationNumbers(path))
  {
    StationTyped(l);
    var s := rows + [l];
    assert s[..|s| - 1] == rows && s[|s| - 1] == l;
  }

  // ---------------------------------------------------------------------
  // The whole reader

  datatype ResidualFile = ResidualFile(header: Header, lines: seq<Line>)

  /** What the constructor leaves in `lines` and the header attributes
      after lines 14-56 and 79, or the exception those lines raise. The
      header scan ends at the end of the file with `NotResidualFile`, as
      `_skipTo` (lines 81-87) does; the line after the heading is skipped
      (line 40). Lines 59-77, which run in between, are not part of this
      function: on a file it accepts they can still raise, and they always
      do when the station table is empty (`period` is then unbound at
      line 69, or `_skipTo` reaches the end of the file). */
  function Parse(fs: FileSystem, path: string): Result<ResidualFile> {
    if path !in fs then Err(FileNotFound(path))
    else
      var ls := fs[path];
      var e := HeadingAt(ls);
      if e == |ls| then Err(NotResidualFile(path))
      else
        var st := Stations(TableRows(ls, Min(e + 2, |ls|)), path);
        if st.Err? then Err(st.error)
        else Ok(ResidualFile(HeaderFrom(InitialHeader, ls[..e]), st.value))
  }

  /** A file that reads has a heading, and its header holds the last
      value of each item before it. */
  lemma ParseHeader(fs: FileSystem, path: string)
    requires Parse(fs, path).Ok?
    ensures path in fs && HeadingAt(fs[path]) < |fs[path]|
    ensures var ls := fs[path];
      var e, h := HeadingAt(ls), Parse(fs, path).value.header;
      && StationHeading(ls[e]) && (forall j :: 0 <= j < e ==> !StationHeading(ls[j]))
      && h.filetype == LastValue(ls[..e], TypeItem) && h.fileformat == LastValue(ls[..e], FormatItem)
      && h.srcprogram == LastValue(ls[..e], ProgramItem) && h.srccprogram == "PROGRAM"
  {
    var ls := fs[path];
    HeadingFromBefore(ls, 0);
    HeaderFields(ls[..HeadingAt(ls)]);
  }

  /** The station lines of a file that reads are those of the table two
      lines below its heading, numbered 1, 2, 3, ... (`StationsOk` and
      `StationsNumbered` say what each of them is). */
  lemma ParseTable(fs: FileSystem, path: string)
    requires Parse(fs, path).Ok?
    ensures path in fs && HeadingAt(fs[path]) < |fs[path]|
    ensures var ls := fs[path];
      var rows, lines := TableRows(ls, Min(HeadingAt(ls) + 2, |ls|)), Parse(fs, path).value.lines;
      && Stations(rows, path) == Ok(lines)
      && |lines| == |rows| && forall k :: 0 <= k < |rows| ==> lines[k].num == k + 1
  {
    ParseLines(fs, path);
    var ls := fs[path];
    StationsNumbered(TableRows(ls, Min(HeadingAt(ls) + 2, |ls|)), path);
  }

  lemma ParseLines(fs: FileSystem, path: string)
    requires Parse(fs, path).Ok?
    ensures path in fs && HeadingAt(fs[path]) < |fs[path]|
    ensures var st := Stations(TableRows(fs[path], Min(HeadingAt(fs[path]) + 2, |fs[path]|)), path);
      st.Ok? && Parse(fs, path).value.lines == st.value
  {
  }

  /** A file with no heading raises `NotResidualFile`, where the loop as
      written never ends. */
  lemma ParseNoHeading(fs: FileSystem, path: string)
    requires path in fs && forall j :: 0 <= j < |fs[path]| ==> !StationHeading(fs[path][j])
    ensures Parse(fs, path) == Err(NotResidualFile(path))
    ensures forall fuel: nat :: WrittenScan(fs[path], 0, fuel).None?
  {
    var ls := fs[path];
    HeadingFromBefore(ls, 0);
    forall fuel: nat
      ensures WrittenScan(ls, 0, fuel).None?
    {
      WrittenScanNeverStops(ls, 0, fuel);
    }
  }

  /** The object of lines 14-79, with the attributes the header and the
      station table set. */
  class Residuals {
    var filetype: Option<string>
    var fileformat: Option<string>
    var srccprogram: string
    var srcprogram: Option<string>
    var differencing: string
    var lines: seq<Line>

    function HeaderState(): Header
      reads this
    {
      Header(filetype, fileformat, srccprogram, srcprogram, differencing)
    }

    function State(): ResidualFile
      reads this
    {
      ResidualFile(HeaderState(), lines)
    }

    /** Lines 17-20. */
    constructor Init()
      ensures HeaderState() == InitialHeader && lines == []
    {
      filetype, fileformat, srccprogram, srcprogram, differencing := None, None, "PROGRAM", None, "";
      lines := [];
    }

    /** Lines 24-39, ending at the end of the file: reads header items up
        to the heading and returns its index, or |ls| when there is none. */
    method ReadHeader(ls: seq<string>) returns (e: nat)
      modifies this
      ensures e == HeadingAt(ls)
      ensures HeaderState() == HeaderFrom(old(HeaderState()), ls[..e]) && lines == old(lines)
    {
      e := 0;
      while e < |ls| && !StationHeading(ls[e])
        invariant e <= |ls| && HeadingFrom(ls, e) == HeadingAt(ls)
        invariant HeaderState() == HeaderFrom(old(HeaderState()), ls[..e]) && lines == old(lines)
      {
        var m := HeaderItem(ls[e]);
        if m.Some? {
          var item, value := m.value.0, m.value.1;
          if item == TypeItem {
            filetype := Some(value);
          } else if item == FormatItem {
            fileformat := Some(value);
          } else if item == ProgramItem {
            srcprogram := Some(value);
          } else if item == LevelItem {
            differencing := value;
          }
        }
        assert ls[..e + 1][..e] == ls[..e];
        e := e + 1;
      }
    }

    /** Lines 42-56 and 79 from the table's first line: decodes station
        lines until a blank one or the end of the file, then sets `lines`.
        An exception leaves `lines` as it was. */
    method ReadTable(ls: seq<string>, start: nat, path: string) returns (err: Option<Error>)
      requires start <= |ls|
      modifies this
      ensures var st := Stations(TableRows(ls, start), path);
        && (st.Ok? ==> err.None? && lines == st.value)
        && (st.Err? ==> err == Some(st.error) && lines == old(lines))
      ensures HeaderState() == old(HeaderState())
    {
      var made := Format.New(LayoutText, None, false);
      assert made.Ok? && made.value.State() == Layout() by { LayoutCompiles(); }
      var table;
      table, err := ReadRows(made.value, ls, start, path, (l: string, n: int) => StationLine(l, n, path));
      if err.None? {
        lines := table;
      }
    }

    /** Lines 47-57: station lines read one after the other up to the
        first blank one, each numbered by its place in the table. */
    static method ReadRows(fmt: Format, ls: seq<string>, start: nat, path: string, ghost step: (string, int) -> Result<Line>)
      returns (table: seq<Line>, err: Option<Error>)
      requires start <= |ls| && fmt.State() == Layout() && ReadsStations(step, path)
      ensures var st := Table(TableRows(ls, start), step);
        && (st.Ok? <==> err.None?)
        && (st.Ok? ==> table == st.value)
        && (st.Err? ==> err == Some(st.error))
    {
      table := [];
      var k := start;
      while true
        invariant start <= k <= |ls| && TableEnd(ls, k) == TableEnd(ls, start)
        invariant Table(ls[start..k], step) == Ok(table)
        decreases |ls| - k
      {
        var l := LineAt(ls, k);
        if Strip(l) == [] {
          break;
        }
        TableStep(ls, start, k, step, table);
        var r := ReadStation(fmt, l, |table| + 1, path, step);
        if r.Err? {
          return table, Some(r.error);
        }
        table := table + [r.value];
        k := k + 1;
      }
      assert ls[start..k] == TableRows(ls, start);
      err := None;
    }

    /** Lines 49-56 on one station line that must carry number n. */
    static method ReadStation(fmt: Format, l: string, n: int, path: string, ghost step: (string, int) -> Result<Line>)
      returns (r: Result<Line>)
      requires fmt.State() == Layout() && ReadsStations(step, path)
      ensures r == step(l, n)
    {
      assert step(l, n) == StationLine(l, n, path);
      StationTyped(l);
      var d := fmt.Read(l);
      if d.Err? {
        return Err(d.error);
      }
      var f := AsFields(d.value);
      if f.period == 0 {
        return Err(ZeroPeriod);
      }
      var offset := FloorDiv(Clock(f), f.period);
      if f.num != n {
        return Err(StationNumbers(path));
      }
      var s1 := SplitOn(f.st1, ' ');
      if s1.None? {
        return Err(BadStationField(f.st1));
      }
      var s2 := SplitOn(f.st2, ' ');
      if s2.None? {
        return Err(BadStationField(f.st2));
      }
      return Ok(Line(f.num, s1.value.0, s2.value.0, Strip(s1.value.1), Strip(s2.value.1), f.nf, offset, f.period));
    }

    /** `Residuals(filename)` through line 56, and line 79: opening the
        file, the header, the line skipped after the heading (line 40) and
        the table. Lines 59-77 are not modelled, and they can still raise
        where this method succeeds (see `Parse`). */
    static method Open(fs: FileSystem, path: string) returns (r: Result<Residuals>)
      ensures r.Ok? <==> Parse(fs, path).Ok?
      ensures r.Ok? ==> fresh(r.value) && r.value.State() == Parse(fs, path).value
      ensures r.Err? ==> r.error == Parse(fs, path).error
    {
      if path !in fs {
        return Err(FileNotFound(path));
      }
      var ls := fs[path];
      var res := new Residuals.Init();
      var e := res.ReadHeader(ls);
      if e == |ls| {
        return Err(NotResidualFile(path));
      }
      var err := res.ReadTable(ls, Min(e + 2, |ls|), path);
      if err.Some? {
        return Err(err.value);
      }
      return Ok(res);
    }
  }

  /** One more line of the table, the k-th of the file: the table read so
      far grows by that line's record, or the whole table fails with that
      line's exception. */
  /** `step` reads station lines as `StationLine` does. The loop of
      `ReadRows` is proved against `Table` with such a step, so that its
      proof does not unfold the lines it has already read. */
  ghost predicate ReadsStations(step: (string, int) -> Result<Line>, path: string) {
    forall l, n {:trigger StationLine(l, n, path)} :: step(l, n) == StationLine(l, n, path)
  }

  lemma TableStep(ls: seq<string>, start: nat, k: nat, step: (string, int) -> Result<Line>, table: seq<Line>)
    requires start <= k < |ls| && TableEnd(ls, k) == TableEnd(ls, start) && Strip(ls[k]) != []
    requires Table(ls[start..k], step) == Ok(table)
    ensures var line := step(ls[k], |table| + 1);
      && (line.Err? ==> Table(TableRows(ls, start), step) == Err(line.error))
      && (line.Ok? ==> Table(ls[start..k + 1], step) == Ok(table + [line.value])
                       && TableEnd(ls, k + 1) == TableEnd(ls, start))
  {
    var rows := ls[start..k + 1];
    assert rows[..|rows| - 1] == ls[start..k];
    assert rows[|rows| - 1] == ls[k];
    var e := TableEnd(ls, start);
    assert TableEnd(ls, k + 1) == e;
    SliceJoin(ls, start, k + 1, e);
    if Table(rows, step).Err? {
      TableKeepsError(rows, ls[k + 1..e], step);
    }
  }

  lemma SliceJoin(ls: seq<string>, a: nat, b: nat, c: nat)
    requires a <= b <= c <= |ls|
    ensures ls[a..c] == ls[a..b] + ls[b..c]
  {
  }
}
