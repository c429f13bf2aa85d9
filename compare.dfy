/** CoordFile.py `compare`: several coordinate sources lined up station by
    station. The sources are read in turn, their key sets intersected and
    narrowed by the code filters, and the table gets one row per selected
    key in ascending order, with one group of columns per source in
    ascending source-name order. */
module CoordCompare {
  import opened Base
  import opened Text
  import opened CoordLines
  import opened CoordFile
  import Util

  /** A keyword argument of `compare`: the name of a coordinate file, read
      with `read`, or a dictionary such as `read` returns. */
  datatype Source = Path(path: string) | Coords(coords: map<string, StationCoord>)

  /** `codes`: absent, a string split at whitespace, or a list. */
  datatype Codes = AllCodes | CodeText(text: string) | CodeList(list: seq<string>)

  /** `GRS80.geodetic(xyz)`: longitude and latitude in degrees, height. */
  datatype Geo = Geo(lon: real, lat: real, hgt: real)

  /** One cell of the table. */
  datatype Entry =
    | Code(code: string)       // the station key
    | Num(value: real)         // lon, lat or hgt
    | Flag(flag: string)       // a source's flag
    | Coord(text: string)      // a coordinate or velocity component, as decoded
    | NaN                      // a missing velocity
    | Derived(column: string)  // the numpy difference computed for that column

  /** The DataFrame: column names and rows. */
  datatype Table = Table(columns: seq<string>, rows: seq<seq<Entry>>)

  // ---------------------------------------------------------------------
  // Lines 116-126: the sources and their common keys

  /** The dictionary a source stands for, or what reading it raises. */
  function SourceCoords(env: Util.Env, fs: FileSystem, src: Source, useCode: bool, velocities: bool)
    : Result<map<string, StationCoord>>
  {
    match src
    case Path(p) => ReadCoords(env, fs, p, None, velocities, false, useCode)
    case Coords(m) => Ok(m)
  }

  /** The sources come from the keyword arguments `**files`, a dictionary,
      so no name appears twice. */
  predicate DistinctNames(files: seq<(string, Source)>) {
    forall i, j :: 0 <= i < j < |files| ==> files[i].0 != files[j].0
  }

  /** The sources' dictionaries in turn, or the first error. */
  function Loaded(env: Util.Env, fs: FileSystem, files: seq<(string, Source)>, useCode: bool, velocities: bool)
    : (r: Result<seq<map<string, StationCoord>>>)
    ensures r.Ok? ==> |r.value| == |files|
  {
    LoadedBy(files, (src: Source) => SourceCoords(env, fs, src, useCode, velocities))
  }

  /** The dictionaries in turn with `load` reading each source, or the
      first error; `Loaded` reads them with `SourceCoords`. */
  function LoadedBy(files: seq<(string, Source)>, load: Source -> Result<map<string, StationCoord>>)
    : (r: Result<seq<map<string, StationCoord>>>)
    ensures r.Ok? ==> |r.value| == |files|
  {
    if files == [] then Ok([])
    else
      var init := LoadedBy(files[..|files| - 1], load);
      if init.Err? then init
      else
        var m := load(files[|files| - 1].1);
        if m.Err? then Err(m.error) else Ok(init.value + [m.value])
  }

  /** `load` reads every source as `SourceCoords` does. The loop of
      `LoadSources` is proved against `LoadedBy` with such a `load`, so
      that its proof does not unfold the reads. */
  ghost predicate Loads(load: Source -> Result<map<string, StationCoord>>, env: Util.Env, fs: FileSystem,
                        useCode: bool, velocities: bool) {
    forall src {:trigger SourceCoords(env, fs, src, useCode, velocities)} ::
      load(src) == SourceCoords(env, fs, src, useCode, velocities)
  }

  /** `usecodes` after the loop: the intersection of the key sets. */
  function Common(ms: seq<map<string, StationCoord>>): set<string>
    requires |ms| > 0
  {
    if |ms| == 1 then ms[0].Keys
    else Common(ms[..|ms| - 1]) * ms[|ms| - 1].Keys
  }

  /** A key is common exactly when every source has it. */
  lemma {:induction false} CommonIs(ms: seq<map<string, StationCoord>>)
    requires |ms| > 0
    ensures forall k :: k in Common(ms) <==> forall i :: 0 <= i < |ms| ==> k in ms[i]
    decreases |ms|
  {
    if |ms| > 1 {
      var init := ms[..|ms| - 1];
      CommonIs(init);
      assert Common(ms) == Common(init) * ms[|ms| - 1].Keys;
      forall k | k in Common(ms)
        ensures forall i :: 0 <= i < |ms| ==> k in ms[i]
      {
        forall i | 0 <= i < |ms| - 1
          ensures k in ms[i]
        {
          assert init[i] == ms[i];
        }
      }
      forall k | forall i :: 0 <= i < |ms| ==> k in ms[i]
        ensures k in Common(ms)
      {
        forall i | 0 <= i < |init|
          ensures k in init[i]
        {
          assert init[i] == ms[i];
        }
      }
    }
  }

  /** `coords` after the loop: each source's dictionary under its name. */
  function Named(files: seq<(string, Source)>, ms: seq<map<string, StationCoord>>)
    : map<string, map<string, StationCoord>>
    requires |files| == |ms|
  {
    if files == [] then map[]
    else Named(files[..|files| - 1], ms[..|ms| - 1])[files[|files| - 1].0 := ms[|ms| - 1]]
  }

  /** The names are the sources' names, and each holds one of the
      dictionaries read. */
  lemma {:induction false} NamedIs(files: seq<(string, Source)>, ms: seq<map<string, StationCoord>>)
    requires |files| == |ms|
    ensures forall t :: t in Named(files, ms) <==> exists j :: 0 <= j < |files| && files[j].0 == t
    ensures forall t :: t in Named(files, ms) ==> exists j :: 0 <= j < |ms| && Named(files, ms)[t] == ms[j]
    decreases |files|
  {
    if files != [] {
      var n := |files| - 1;
      NamedIs(files[..n], ms[..n]);
      var m := Named(files, ms);
      assert m == Named(files[..n], ms[..n])[files[n].0 := ms[n]];
      forall t | t in m
        ensures exists j :: 0 <= j < |files| && files[j].0 == t
        ensures exists j :: 0 <= j < |ms| && m[t] == ms[j]
      {
        if t != files[n].0 {
          assert t in Named(files[..n], ms[..n]);
          var j :| 0 <= j < n && files[..n][j].0 == t;
          assert files[j] == files[..n][j];
          var i :| 0 <= i < n && Named(files[..n], ms[..n])[t] == ms[..n][i];
          assert ms[..n][i] == ms[i];
        }
      }
      forall t | exists j :: 0 <= j < |files| && files[j].0 == t
        ensures t in m
      {
        var j :| 0 <= j < |files| && files[j].0 == t;
        if j < n {
          assert files[..n][j] == files[j];
          assert t in Named(files[..n], ms[..n]);
        }
      }
    }
  }

  // ---------------------------------------------------------------------
  // Lines 134-144: the code filters

  /** `set(codes)`, a string being split first; `None` when absent. */
  function Filter(codes: Codes): Option<set<string>> {
    match codes
    case AllCodes => None
    case CodeText(t) => Some(set w | w in Split(t))
    case CodeList(l) => Some(set w | w in l)
  }

  /** `usecodes` after both filters, or the error reading `codesCoordFile`. */
  function Selected(env: Util.Env, fs: FileSystem, common: set<string>, codes: Codes,
                    codesCoordFile: Option<string>, useCode: bool): Result<set<string>>
  {
    var filtered := if Filter(codes).Some? then common * Filter(codes).value else common;
    if codesCoordFile.None? then Ok(filtered)
    else
      var cf := ReadCoords(env, fs, codesCoordFile.value, None, false, false, useCode);
      if cf.Err? then Err(cf.error) else Ok(filtered * cf.value.Keys)
  }

  // ---------------------------------------------------------------------
  // Lines 180-189: the columns

  function SourceColumns(t: string, velocities: bool): seq<string> {
    [t + "_X", t + "_Y", t + "_Z"] + if velocities then [t + "_VX", t + "_VY", t + "_VZ"] else []
  }

  function DiffColumns(velocities: bool): seq<string> {
    ["diff_X", "diff_Y", "diff_Z", "diff_E", "diff_N", "diff_U", "offset"]
    + if velocities then ["diff_VX", "diff_VY", "diff_VZ", "diff_VE", "diff_VN", "diff_VU", "offsetV"] else []
  }

  function FlagColumns(names: seq<string>): (cs: seq<string>)
    ensures |cs| == |names|
  {
    if names == [] then [] else FlagColumns(names[..|names| - 1]) + [names[|names| - 1] + "_flg"]
  }

  function CoordColumns(names: seq<string>, velocities: bool): (cs: seq<string>)
    ensures |cs| == |names| * Width(velocities)
  {
    if names == [] then []
    else CoordColumns(names[..|names| - 1], velocities) + SourceColumns(names[|names| - 1], velocities)
  }

  /** The number of columns per source. */
  function Width(velocities: bool): nat {
    if velocities then 6 else 3
  }

  /** The difference columns are there only for exactly two sources. */
  function Columns(names: seq<string>, velocities: bool): seq<string> {
    ["code", "lon", "lat", "hgt"] + FlagColumns(names) + CoordColumns(names, velocities)
    + if |names| == 2 then DiffColumns(velocities) else []
  }

  // ---------------------------------------------------------------------
  // Lines 149-178: the rows

  /** Line 155: longitudes are reported in [0, 360). */
  function Lon(lon: real): (r: real)
    ensures lon >= 0.0 ==> r == lon
    ensures -360.0 <= lon < 360.0 ==> 0.0 <= r < 360.0
  {
    if lon < 0.0 then lon + 360.0 else lon
  }

  /** One source's coordinates, then its velocities or NaN when it has none. */
  function SourceCells(c: StationCoord, velocities: bool): seq<Entry> {
    [Coord(c.xyz.x), Coord(c.xyz.y), Coord(c.xyz.z)]
    + if !velocities then []
      else if c.vxyz.Some? then [Coord(c.vxyz.value.x), Coord(c.vxyz.value.y), Coord(c.vxyz.value.z)]
      else [NaN, NaN, NaN]
  }

  function FlagCells(cdata: seq<StationCoord>): (es: seq<Entry>)
    ensures |es| == |cdata|
  {
    if cdata == [] then [] else FlagCells(cdata[..|cdata| - 1]) + [Flag(cdata[|cdata| - 1].flag)]
  }

  function CoordCells(cdata: seq<StationCoord>, velocities: bool): (es: seq<Entry>)
    ensures |es| == |cdata| * Width(velocities)
  {
    if cdata == [] then []
    else CoordCells(cdata[..|cdata| - 1], velocities) + SourceCells(cdata[|cdata| - 1], velocities)
  }

  /** The cells numpy fills, each standing for its column's difference. */
  function DerivedCells(columns: seq<string>): (es: seq<Entry>)
    ensures |es| == |columns| && forall i :: 0 <= i < |columns| ==> es[i] == Derived(columns[i])
  {
    if columns == [] then [] else [Derived(columns[0])] + DerivedCells(columns[1..])
  }

  /** `codedata` for one key; the position comes from the first source. */
  function Row(code: string, cdata: seq<StationCoord>, velocities: bool, geodetic: Xyz -> Geo): seq<Entry>
    requires |cdata| > 0
  {
    var g := geodetic(cdata[0].xyz);
    [Code(code), Num(Lon(g.lon)), Num(g.lat), Num(g.hgt)] + FlagCells(cdata) + CoordCells(cdata, velocities)
    + if |cdata| == 2 then DerivedCells(DiffColumns(velocities)) else []
  }

  /** Every source has every key asked for. */
  predicate Covers(named: map<string, map<string, StationCoord>>, names: seq<string>, codes: seq<string>) {
    forall i, j :: 0 <= i < |names| && 0 <= j < |codes| ==> names[i] in named && codes[j] in named[names[i]]
  }

  /** `cdata`: the key's entry in each source, in the given order. */
  function CData(code: string, names: seq<string>, named: map<string, map<string, StationCoord>>)
    : (cs: seq<StationCoord>)
    requires Covers(named, names, [code])
    ensures |cs| == |names|
  {
    if names == [] then []
    else
      assert [code][0] == code;
      assert names[|names| - 1] in named && code in named[names[|names| - 1]];
      assert Covers(named, names[..|names| - 1], [code]) by {
        forall i | 0 <= i < |names| - 1 ensures names[..|names| - 1][i] == names[i] { }
      }
      CData(code, names[..|names| - 1], named) + [named[names[|names| - 1]][code]]
  }

  function Rows(codes: seq<string>, names: seq<string>, named: map<string, map<string, StationCoord>>,
                velocities: bool, geodetic: Xyz -> Geo): (rs: seq<seq<Entry>>)
    requires |names| > 0 && Covers(named, names, codes)
    ensures |rs| == |codes|
  {
    if codes == [] then []
    else
      var code := codes[|codes| - 1];
      assert Covers(named, names, codes[..|codes| - 1]) by {
        forall j | 0 <= j < |codes| - 1 ensures codes[..|codes| - 1][j] == codes[j] { }
      }
      assert Covers(named, names, [code]) by {
        assert [code][0] == codes[|codes| - 1];
      }
      Rows(codes[..|codes| - 1], names, named, velocities, geodetic)
      + [Row(code, CData(code, names, named), velocities, geodetic)]
  }

  // ---------------------------------------------------------------------
  // The whole of `compare`

  /** What `compare` returns or raises, in the order the source checks. */
  ghost function Comparison(env: Util.Env, fs: FileSystem, codes: Codes, codesCoordFile: Option<string>,
                            useCode: bool, velocities: bool, files: seq<(string, Source)>,
                            geodetic: Xyz -> Geo): Result<Table>
  {
    var loaded := Loaded(env, fs, files, useCode, velocities);
    if loaded.Err? then Err(loaded.error)
    else if files == [] then Err(NoFiles)
    else if Common(loaded.value) == {} then Err(NoCommonCodes)
    else
      var sel := Selected(env, fs, Common(loaded.value), codes, codesCoordFile, useCode);
      if sel.Err? then Err(sel.error)
      else if sel.value == {} then Err(NoCodesSelected)
      else Ok(Tabulate(files, loaded.value, sel.value, velocities, geodetic))
  }

  /** The table for the selected keys: rows in ascending key order, source
      groups in ascending name order. */
  ghost function Tabulate(files: seq<(string, Source)>, ms: seq<map<string, StationCoord>>, sel: set<string>,
                          velocities: bool, geodetic: Xyz -> Geo): Table
    requires |files| == |ms| > 0 && sel <= Common(ms)
  {
    var named := Named(files, ms);
    var names := SortedSet(named.Keys);
    var keys := SortedSet(sel);
    Covered(files, ms, sel, names, keys);
    Table(Columns(names, velocities), Rows(keys, names, named, velocities, geodetic))
  }

  /** The filters only narrow the common keys. */
  lemma SelectedWithin(env: Util.Env, fs: FileSystem, common: set<string>, codes: Codes,
                       codesCoordFile: Option<string>, useCode: bool)
    requires Selected(env, fs, common, codes, codesCoordFile, useCode).Ok?
    ensures Selected(env, fs, common, codes, codesCoordFile, useCode).value <= common
  {
  }

  /** Every selected key is in every source, and there is a source. */
  lemma Covered(files: seq<(string, Source)>, ms: seq<map<string, StationCoord>>, sel: set<string>,
                names: seq<string>, keys: seq<string>)
    requires |files| == |ms| > 0 && sel <= Common(ms)
    requires forall t :: t in names <==> t in Named(files, ms)
    requires forall k :: k in keys ==> k in sel
    ensures |names| > 0 && Covers(Named(files, ms), names, keys)
  {
    CommonIs(ms);
    NamedIs(files, ms);
    assert files[0].0 in Named(files, ms);
    forall i, j | 0 <= i < |names| && 0 <= j < |keys|
      ensures names[i] in Named(files, ms) && keys[j] in Named(files, ms)[names[i]]
    {
      assert names[i] in names && keys[j] in keys;
      var n :| 0 <= n < |ms| && Named(files, ms)[names[i]] == ms[n];
    }
  }

  // ---------------------------------------------------------------------
  // Rows and columns line up

  lemma {:induction false} FlagColumnsAt(names: seq<string>, j: nat)
    requires j < |names|
    ensures FlagColumns(names)[j] == names[j] + "_flg"
    decreases |names|
  {
    if j < |names| - 1 {
      FlagColumnsAt(names[..|names| - 1], j);
    }
  }

  lemma {:induction false} FlagCellsAt(cdata: seq<StationCoord>, j: nat)
    requires j < |cdata|
    ensures FlagCells(cdata)[j] == Flag(cdata[j].flag)
    decreases |cdata|
  {
    if j < |cdata| - 1 {
      FlagCellsAt(cdata[..|cdata| - 1], j);
    }
  }

  lemma {:induction false} CoordColumnsAt(names: seq<string>, velocities: bool, j: nat)
    requires j < |names|
    ensures var w := Width(velocities);
      CoordColumns(names, velocities)[w * j..w * (j + 1)] == SourceColumns(names[j], velocities)
    decreases |names|
  {
    var w, n := Width(velocities), |names| - 1;
    var init := CoordColumns(names[..n], velocities);
    assert CoordColumns(names, velocities) == init + SourceColumns(names[n], velocities);
    if j < n {
      CoordColumnsAt(names[..n], velocities, j);
      assert w * (j + 1) <= |init| by { assert |init| == n * w; }
      SliceLeft(init, SourceColumns(names[n], velocities), w * j, w * (j + 1));
    } else {
      assert |init| == w * j;
      SliceRight(init, SourceColumns(names[n], velocities));
    }
  }

  lemma {:induction false} CoordCellsAt(cdata: seq<StationCoord>, velocities: bool, j: nat)
    requires j < |cdata|
    ensures var w := Width(velocities);
      CoordCells(cdata, velocities)[w * j..w * (j + 1)] == SourceCells(cdata[j], velocities)
    decreases |cdata|
  {
    var w, n := Width(velocities), |cdata| - 1;
    var init := CoordCells(cdata[..n], velocities);
    assert CoordCells(cdata, velocities) == init + SourceCells(cdata[n], velocities);
    if j < n {
      CoordCellsAt(cdata[..n], velocities, j);
      assert w * (j + 1) <= |init| by { assert |init| == n * w; }
      SliceLeft(init, SourceCells(cdata[n], velocities), w * j, w * (j + 1));
    } else {
      assert |init| == w * j;
      SliceRight(init, SourceCells(cdata[n], velocities));
    }
  }

  lemma SliceLeft<T>(a: seq<T>, b: seq<T>, x: nat, y: nat)
    requires x <= y <= |a|
    ensures (a + b)[x..y] == a[x..y]
  {
  }

  lemma SliceRight<T>(a: seq<T>, b: seq<T>)
    ensures (a + b)[|a|..|a| + |b|] == b
  {
  }

  /** A row for as many sources as there are names has one cell per
      column; the fixed columns come first and the differences last. */
  lemma RowShape(code: string, cdata: seq<StationCoord>, names: seq<string>, velocities: bool, geodetic: Xyz -> Geo)
    requires |cdata| == |names| > 0
    ensures var row, cols, n, w := Row(code, cdata, velocities, geodetic), Columns(names, velocities), |names|, Width(velocities);
      && |row| == |cols| == 4 + n + n * w + (if n == 2 then |DiffColumns(velocities)| else 0)
      && cols[..4] == ["code", "lon", "lat", "hgt"]
      && row[0] == Code(code) && row[1] == Num(Lon(geodetic(cdata[0].xyz).lon))
      && row[2] == Num(geodetic(cdata[0].xyz).lat) && row[3] == Num(geodetic(cdata[0].xyz).hgt)
      && cols[4 + n + n * w..] == (if n == 2 then DiffColumns(velocities) else [])
      && row[4 + n + n * w..] == DerivedCells(cols[4 + n + n * w..])
  {
    RowCells(code, cdata, velocities, geodetic);
    ColumnNames(names, velocities);
  }

  /** The cells of a row: the code and position, then the flags and
      coordinates, then the derived differences. */
  lemma RowCells(code: string, cdata: seq<StationCoord>, velocities: bool, geodetic: Xyz -> Geo)
    requires |cdata| > 0
    ensures var row, n, w := Row(code, cdata, velocities, geodetic), |cdata|, Width(velocities);
      && |row| == 4 + n + n * w + (if n == 2 then |DiffColumns(velocities)| else 0)
      && row[0] == Code(code) && row[1] == Num(Lon(geodetic(cdata[0].xyz).lon))
      && row[2] == Num(geodetic(cdata[0].xyz).lat) && row[3] == Num(geodetic(cdata[0].xyz).hgt)
      && row[4 + n + n * w..] == DerivedCells(if n == 2 then DiffColumns(velocities) else [])
  {
    var n := |cdata|;
    var g := geodetic(cdata[0].xyz);
    var head: seq<Entry> := [Code(code), Num(Lon(g.lon)), Num(g.lat), Num(g.hgt)];
    var diffs := if n == 2 then DiffColumns(velocities) else [];
    assert Row(code, cdata, velocities, geodetic) == head + FlagCells(cdata) + CoordCells(cdata, velocities) + DerivedCells(diffs);
    Parts(head, FlagCells(cdata), CoordCells(cdata, velocities), DerivedCells(diffs));
  }

  /** The column names, in the same order as the cells of a row. */
  lemma ColumnNames(names: seq<string>, velocities: bool)
    requires |names| > 0
    ensures var cols, n, w := Columns(names, velocities), |names|, Width(velocities);
      && |cols| == 4 + n + n * w + (if n == 2 then |DiffColumns(velocities)| else 0)
      && cols[..4] == ["code", "lon", "lat", "hgt"]
      && cols[4 + n + n * w..] == (if n == 2 then DiffColumns(velocities) else [])
  {
    var n := |names|;
    var diffs := if n == 2 then DiffColumns(velocities) else [];
    var top := ["code", "lon", "lat", "hgt"];
    assert Columns(names, velocities) == top + FlagColumns(names) + CoordColumns(names, velocities) + diffs;
    Parts(top, FlagColumns(names), CoordColumns(names, velocities), diffs);
  }

  lemma Parts<T>(a: seq<T>, b: seq<T>, c: seq<T>, d: seq<T>)
    ensures |a + b + c + d| == |a| + |b| + |c| + |d|
    ensures (a + b + c + d)[..|a|] == a
    ensures forall k :: 0 <= k < |a| ==> (a + b + c + d)[k] == a[k]
    ensures (a + b + c + d)[|a| + |b| + |c|..] == d
  {
    assert (a + b + c + d)[|a| + |b| + |c|..] == d;
  }

  lemma InSecond<T>(a: seq<T>, b: seq<T>, c: seq<T>, d: seq<T>, k: nat)
    requires k < |b|
    ensures (a + b + c + d)[|a| + k] == b[k]
  {
  }

  lemma InThird<T>(a: seq<T>, b: seq<T>, c: seq<T>, d: seq<T>, x: nat, y: nat)
    requires x <= y <= |c|
    ensures (a + b + c + d)[|a| + |b| + x..|a| + |b| + y] == c[x..y]
  {
    forall m | 0 <= m < y - x
      ensures (a + b + c + d)[|a| + |b| + x..|a| + |b| + y][m] == c[x..y][m]
    {
      assert (a + b + c + d)[|a| + |b| + x + m] == c[x + m];
    }
  }

  /** In a row of n sources the j-th source's flag sits under the column
      "<name>_flg", and its coordinates (and velocities) under "<name>_X" ...
      in the j-th group; the row is as wide as the header. */
  predicate Aligned(row: seq<Entry>, cols: seq<string>, name: string, c: StationCoord, n: nat, j: nat, velocities: bool) {
    var w := Width(velocities);
    && j < n && |row| == |cols| && 4 + n + w * (j + 1) <= |row|
    && cols[4 + j] == name + "_flg" && row[4 + j] == Flag(c.flag)
    && cols[4 + n + w * j..4 + n + w * (j + 1)] == SourceColumns(name, velocities)
    && row[4 + n + w * j..4 + n + w * (j + 1)] == SourceCells(c, velocities)
  }

  lemma RowLinesUp(code: string, cdata: seq<StationCoord>, names: seq<string>, velocities: bool,
                   geodetic: Xyz -> Geo, j: nat)
    requires |cdata| == |names| > 0 && j < |names|
    ensures Aligned(Row(code, cdata, velocities, geodetic), Columns(names, velocities), names[j], cdata[j], |names|, j, velocities)
  {
    RowShape(code, cdata, names, velocities, geodetic);
    ColumnsAt(names, velocities, j);
    CellsAt(code, cdata, velocities, geodetic, j);
  }

  lemma ColumnsAt(names: seq<string>, velocities: bool, j: nat)
    requires j < |names|
    ensures var cols, n, w := Columns(names, velocities), |names|, Width(velocities);
      && 4 + n + w * (j + 1) <= |cols|
      && cols[4 + j] == names[j] + "_flg"
      && cols[4 + n + w * j..4 + n + w * (j + 1)] == SourceColumns(names[j], velocities)
  {
    var n, w := |names|, Width(velocities);
    var diffs := if n == 2 then DiffColumns(velocities) else [];
    var fn, cn := FlagColumns(names), CoordColumns(names, velocities);
    var top := ["code", "lon", "lat", "hgt"];
    assert Columns(names, velocities) == top + fn + cn + diffs;
    assert w * (j + 1) <= n * w;
    FlagColumnsAt(names, j);
    CoordColumnsAt(names, velocities, j);
    InSecond(top, fn, cn, diffs, j);
    InThird(top, fn, cn, diffs, w * j, w * (j + 1));
  }

  lemma CellsAt(code: string, cdata: seq<StationCoord>, velocities: bool, geodetic: Xyz -> Geo, j: nat)
    requires 0 < |cdata| && j < |cdata|
    ensures var row, n, w := Row(code, cdata, velocities, geodetic), |cdata|, Width(velocities);
      && 4 + n + w * (j + 1) <= |row|
      && row[4 + j] == Flag(cdata[j].flag)
      && row[4 + n + w * j..4 + n + w * (j + 1)] == SourceCells(cdata[j], velocities)
  {
    RowFlagAt(code, cdata, velocities, geodetic, j);
    RowSourceAt(code, cdata, velocities, geodetic, j);
  }

  /** The row as its four parts. */
  lemma RowParts(code: string, cdata: seq<StationCoord>, velocities: bool, geodetic: Xyz -> Geo)
    requires 0 < |cdata|
    ensures var g := geodetic(cdata[0].xyz);
      Row(code, cdata, velocities, geodetic)
        == [Code(code), Num(Lon(g.lon)), Num(g.lat), Num(g.hgt)] + FlagCells(cdata) + CoordCells(cdata, velocities)
           + (if |cdata| == 2 then DerivedCells(DiffColumns(velocities)) else [])
  {
  }

  lemma RowFlagAt(code: string, cdata: seq<StationCoord>, velocities: bool, geodetic: Xyz -> Geo, j: nat)
    requires 0 < |cdata| && j < |cdata|
    ensures 4 + j < |Row(code, cdata, velocities, geodetic)|
    ensures Row(code, cdata, velocities, geodetic)[4 + j] == Flag(cdata[j].flag)
  {
    var g := geodetic(cdata[0].xyz);
    var head: seq<Entry> := [Code(code), Num(Lon(g.lon)), Num(g.lat), Num(g.hgt)];
    var diffs := if |cdata| == 2 then DerivedCells(DiffColumns(velocities)) else [];
    RowParts(code, cdata, velocities, geodetic);
    FlagCellsAt(cdata, j);
    InSecond(head, FlagCells(cdata), CoordCells(cdata, velocities), diffs, j);
  }

  lemma RowSourceAt(code: string, cdata: seq<StationCoord>, velocities: bool, geodetic: Xyz -> Geo, j: nat)
    requires 0 < |cdata| && j < |cdata|
    ensures var row, n, w := Row(code, cdata, velocities, geodetic), |cdata|, Width(velocities);
      && 4 + n + w * (j + 1) <= |row|
      && row[4 + n + w * j..4 + n + w * (j + 1)] == SourceCells(cdata[j], velocities)
  {
    var n, w := |cdata|, Width(velocities);
    var g := geodetic(cdata[0].xyz);
    var head: seq<Entry> := [Code(code), Num(Lon(g.lon)), Num(g.lat), Num(g.hgt)];
    var diffs := if n == 2 then DerivedCells(DiffColumns(velocities)) else [];
    var x, y := w * j, w * (j + 1);
    SlotWithin(n, w, j);
    CoordCellsAt(cdata, velocities, j);
    RowParts(code, cdata, velocities, geodetic);
    ThirdSlice(Row(code, cdata, velocities, geodetic), head, FlagCells(cdata), CoordCells(cdata, velocities), diffs,
               x, y, SourceCells(cdata[j], velocities));
  }

  lemma ThirdSlice<T>(s: seq<T>, a: seq<T>, b: seq<T>, c: seq<T>, d: seq<T>, x: nat, y: nat, u: seq<T>)
    requires s == a + b + c + d && x <= y <= |c| && c[x..y] == u
    ensures |a| + |b| + y <= |s| && s[|a| + |b| + x..|a| + |b| + y] == u
  {
    InThird(a, b, c, d, x, y);
  }

  /** The j-th group of w cells lies within n such groups. */
  lemma SlotWithin(n: nat, w: nat, j: nat)
    requires j < n
    ensures 0 <= w * j <= w * (j + 1) <= n * w
  {
    assert w * (j + 1) == w * j + w;
    assert n * w == w * (j + 1) + w * (n - j - 1);
  }

  lemma {:induction false} RowsAt(keys: seq<string>, names: seq<string>, named: map<string, map<string, StationCoord>>,
                                  velocities: bool, geodetic: Xyz -> Geo, i: nat)
    requires |names| > 0 && Covers(named, names, keys) && i < |keys|
    ensures Covers(named, names, [keys[i]])
    ensures Rows(keys, names, named, velocities, geodetic)[i] == Row(keys[i], CData(keys[i], names, named), velocities, geodetic)
    decreases |keys|
  {
    assert [keys[i]][0] == keys[i];
    var n := |keys| - 1;
    assert Covers(named, names, keys[..n]) by {
      forall m | 0 <= m < n ensures keys[..n][m] == keys[m] { }
    }
    assert Covers(named, names, [keys[n]]) by {
      assert [keys[n]][0] == keys[n];
    }
    var front := Rows(keys[..n], names, named, velocities, geodetic);
    assert Rows(keys, names, named, velocities, geodetic)
      == front + [Row(keys[n], CData(keys[n], names, named), velocities, geodetic)];
    if i < n {
      RowsAt(keys[..n], names, named, velocities, geodetic, i);
    }
  }

  lemma {:induction false} CDataAt(code: string, names: seq<string>, named: map<string, map<string, StationCoord>>, j: nat)
    requires Covers(named, names, [code]) && j < |names|
    ensures names[j] in named && code in named[names[j]]
    ensures CData(code, names, named)[j] == named[names[j]][code]
    decreases |names|
  {
    assert [code][0] == code;
    var n := |names| - 1;
    if j < n {
      assert Covers(named, names[..n], [code]) by {
        forall m | 0 <= m < n ensures names[..n][m] == names[m] { }
      }
      CDataAt(code, names[..n], named, j);
    }
  }

  // ---------------------------------------------------------------------
  // Properties of `compare`

  /** `compare`'s table, once the sources are read and the keys selected. */
  lemma ComparisonOk(env: Util.Env, fs: FileSystem, codes: Codes, codesCoordFile: Option<string>, useCode: bool,
                     velocities: bool, files: seq<(string, Source)>, geodetic: Xyz -> Geo)
    requires Comparison(env, fs, codes, codesCoordFile, useCode, velocities, files, geodetic).Ok?
    ensures Loaded(env, fs, files, useCode, velocities).Ok? && files != []
    ensures var ms := Loaded(env, fs, files, useCode, velocities).value;
      && Selected(env, fs, Common(ms), codes, codesCoordFile, useCode).Ok?
      && Selected(env, fs, Common(ms), codes, codesCoordFile, useCode).value <= Common(ms)
      && Comparison(env, fs, codes, codesCoordFile, useCode, velocities, files, geodetic).value
         == Tabulate(files, ms, Selected(env, fs, Common(ms), codes, codesCoordFile, useCode).value, velocities, geodetic)
  {
    var ms := Loaded(env, fs, files, useCode, velocities).value;
    SelectedWithin(env, fs, Common(ms), codes, codesCoordFile, useCode);
  }

  /** A key `compare` keeps: every source has it, and it passes both the
      code filter and the filter coordinate file. */
  ghost predicate Wanted(env: Util.Env, fs: FileSystem, ms: seq<map<string, StationCoord>>, codes: Codes,
                         codesCoordFile: Option<string>, useCode: bool, k: string)
  {
    && (forall m :: 0 <= m < |ms| ==> k in ms[m])
    && (Filter(codes).Some? ==> k in Filter(codes).value)
    && (codesCoordFile.Some? ==>
          var cf := ReadCoords(env, fs, codesCoordFile.value, None, false, false, useCode);
          cf.Ok? && k in cf.value)
  }

  /** The keys that survive the filters. */
  lemma SelectedIs(env: Util.Env, fs: FileSystem, ms: seq<map<string, StationCoord>>, codes: Codes,
                   codesCoordFile: Option<string>, useCode: bool)
    requires |ms| > 0 && Selected(env, fs, Common(ms), codes, codesCoordFile, useCode).Ok?
    ensures forall k :: k in Selected(env, fs, Common(ms), codes, codesCoordFile, useCode).value <==>
      Wanted(env, fs, ms, codes, codesCoordFile, useCode, k)
  {
    CommonIs(ms);
  }

  /** The table in terms of the sorted names and keys. */
  lemma TabulateIs(files: seq<(string, Source)>, ms: seq<map<string, StationCoord>>, sel: set<string>,
                   velocities: bool, geodetic: Xyz -> Geo,
                   named: map<string, map<string, StationCoord>>, names: seq<string>, keys: seq<string>)
    requires |files| == |ms| > 0 && sel <= Common(ms)
    requires named == Named(files, ms) && names == SortedSet(named.Keys) && keys == SortedSet(sel)
    ensures |names| > 0 && Covers(named, names, keys)
    ensures Tabulate(files, ms, sel, velocities, geodetic) == Table(Columns(names, velocities), Rows(keys, names, named, velocities, geodetic))
  {
    Covered(files, ms, sel, names, keys);
  }

  /** Row i of the table starts with the i-th selected key, and the j-th
      source's record for that key lines up with that source's columns. */
  lemma TableAt(files: seq<(string, Source)>, ms: seq<map<string, StationCoord>>, sel: set<string>,
                velocities: bool, geodetic: Xyz -> Geo,
                named: map<string, map<string, StationCoord>>, names: seq<string>, keys: seq<string>, t: Table, i: nat, j: nat)
    requires |files| == |ms| > 0 && sel <= Common(ms)
    requires named == Named(files, ms) && names == SortedSet(named.Keys) && keys == SortedSet(sel)
    requires t == Tabulate(files, ms, sel, velocities, geodetic)
    requires i < |keys| && j < |names|
    ensures names[j] in named && keys[i] in named[names[j]]
    ensures |t.rows| == |keys| && |t.rows[i]| > 0 && t.rows[i][0] == Code(keys[i])
    ensures Aligned(t.rows[i], t.columns, names[j], named[names[j]][keys[i]], |names|, j, velocities)
  {
    TabulateIs(files, ms, sel, velocities, geodetic, named, names, keys);
    RowsAt(keys, names, named, velocities, geodetic, i);
    CDataAt(keys[i], names, named, j);
    RowShape(keys[i], CData(keys[i], names, named), names, velocities, geodetic);
    RowLinesUp(keys[i], CData(keys[i], names, named), names, velocities, geodetic, j);
  }

  /** The difference columns come last, and only for exactly two sources. */
  lemma TableTail(files: seq<(string, Source)>, ms: seq<map<string, StationCoord>>, sel: set<string>,
                  velocities: bool, geodetic: Xyz -> Geo,
                  named: map<string, map<string, StationCoord>>, names: seq<string>, keys: seq<string>, t: Table, i: nat)
    requires |files| == |ms| > 0 && sel <= Common(ms)
    requires named == Named(files, ms) && names == SortedSet(named.Keys) && keys == SortedSet(sel)
    requires t == Tabulate(files, ms, sel, velocities, geodetic)
    requires i < |keys|
    ensures var n, w := |names|, Width(velocities);
      && |t.rows| == |keys| && |t.rows[i]| == |t.columns| == 4 + n + n * w + (if n == 2 then |DiffColumns(velocities)| else 0)
      && t.columns[4 + n + n * w..] == (if n == 2 then DiffColumns(velocities) else [])
      && t.rows[i][4 + n + n * w..] == DerivedCells(t.columns[4 + n + n * w..])
  {
    TabulateIs(files, ms, sel, velocities, geodetic, named, names, keys);
    RowsAt(keys, names, named, velocities, geodetic, i);
    RowShape(keys[i], CData(keys[i], names, named), names, velocities, geodetic);
  }

  /** The rows come in strictly ascending key order. */
  lemma CompareSorted(env: Util.Env, fs: FileSystem, codes: Codes, codesCoordFile: Option<string>, useCode: bool,
                      velocities: bool, files: seq<(string, Source)>, geodetic: Xyz -> Geo, t: Table)
    requires Comparison(env, fs, codes, codesCoordFile, useCode, velocities, files, geodetic) == Ok(t)
    ensures forall i :: 0 <= i < |t.rows| ==> |t.rows[i]| > 0 && t.rows[i][0].Code?
    ensures forall i, j :: 0 <= i < j < |t.rows| ==> Less(t.rows[i][0].code, t.rows[j][0].code)
  {
    ComparisonOk(env, fs, codes, codesCoordFile, useCode, velocities, files, geodetic);
    var ms := Loaded(env, fs, files, useCode, velocities).value;
    TableKeys(files, ms, Selected(env, fs, Common(ms), codes, codesCoordFile, useCode).value, velocities, geodetic);
  }

  /** There is one row for each key that every source has and both filters
      let through. */
  lemma CompareKeys(env: Util.Env, fs: FileSystem, codes: Codes, codesCoordFile: Option<string>, useCode: bool,
                    velocities: bool, files: seq<(string, Source)>, geodetic: Xyz -> Geo,
                    t: Table, ms: seq<map<string, StationCoord>>, k: string)
    requires Comparison(env, fs, codes, codesCoordFile, useCode, velocities, files, geodetic) == Ok(t)
    requires Loaded(env, fs, files, useCode, velocities) == Ok(ms)
    ensures files != [] && |ms| == |files|
    ensures (exists i :: 0 <= i < |t.rows| && |t.rows[i]| > 0 && t.rows[i][0] == Code(k)) <==>
      Wanted(env, fs, ms, codes, codesCoordFile, useCode, k)
  {
    ComparisonOk(env, fs, codes, codesCoordFile, useCode, velocities, files, geodetic);
    var sel := Selected(env, fs, Common(ms), codes, codesCoordFile, useCode).value;
    SelectedIs(env, fs, ms, codes, codesCoordFile, useCode);
    TableKeys(files, ms, sel, velocities, geodetic);
  }

  /** The first cells of the rows are the selected keys, ascending. */
  lemma TableKeys(files: seq<(string, Source)>, ms: seq<map<string, StationCoord>>, sel: set<string>,
                  velocities: bool, geodetic: Xyz -> Geo)
    requires |files| == |ms| > 0 && sel <= Common(ms)
    ensures var rows := Tabulate(files, ms, sel, velocities, geodetic).rows;
      && (forall i :: 0 <= i < |rows| ==> |rows[i]| > 0 && rows[i][0].Code?)
      && (forall i, j :: 0 <= i < j < |rows| ==> Less(rows[i][0].code, rows[j][0].code))
      && forall k :: (exists i :: 0 <= i < |rows| && rows[i][0] == Code(k)) <==> k in sel
  {
    var named := Named(files, ms);
    var names, keys := SortedSet(named.Keys), SortedSet(sel);
    TabulateIs(files, ms, sel, velocities, geodetic, named, names, keys);
    RowsKeys(keys, names, named, velocities, geodetic);
    KeysSorted(keys, sel, Rows(keys, names, named, velocities, geodetic));
  }

  /** Row i starts with key i. */
  lemma RowsKeys(keys: seq<string>, names: seq<string>, named: map<string, map<string, StationCoord>>,
                 velocities: bool, geodetic: Xyz -> Geo)
    requires |names| > 0 && Covers(named, names, keys)
    ensures var rows := Rows(keys, names, named, velocities, geodetic);
      forall i :: 0 <= i < |rows| ==> |rows[i]| > 0 && rows[i][0] == Code(keys[i])
  {
    var rows := Rows(keys, names, named, velocities, geodetic);
    forall i | 0 <= i < |rows|
      ensures |rows[i]| > 0 && rows[i][0] == Code(keys[i])
    {
      RowsAt(keys, names, named, velocities, geodetic, i);
    }
  }

  /** Rows headed by the sorted keys of a set come in order, one per key. */
  lemma KeysSorted(keys: seq<string>, sel: set<string>, rows: seq<seq<Entry>>)
    requires keys == SortedSet(sel) && |rows| == |keys|
    requires forall i :: 0 <= i < |rows| ==> |rows[i]| > 0 && rows[i][0] == Code(keys[i])
    ensures forall i :: 0 <= i < |rows| ==> |rows[i]| > 0 && rows[i][0].Code?
    ensures forall i, j :: 0 <= i < j < |rows| ==> Less(rows[i][0].code, rows[j][0].code)
    ensures forall k :: (exists i :: 0 <= i < |rows| && rows[i][0] == Code(k)) <==> k in sel
  {
    forall k | k in sel
      ensures exists i :: 0 <= i < |rows| && rows[i][0] == Code(k)
    {
      assert k in keys;
      var i :| 0 <= i < |keys| && keys[i] == k;
      assert rows[i][0] == Code(k);
    }
  }

  /** Without sources `compare` raises. */
  lemma CompareNoFiles(env: Util.Env, fs: FileSystem, codes: Codes, codesCoordFile: Option<string>, useCode: bool,
                       velocities: bool, geodetic: Xyz -> Geo)
    ensures Comparison(env, fs, codes, codesCoordFile, useCode, velocities, [], geodetic) == Err(NoFiles)
  {
  }

  /** Two sources with no key in common make `compare` raise. */
  lemma CompareDisjoint(env: Util.Env, fs: FileSystem, codes: Codes, codesCoordFile: Option<string>, useCode: bool,
                        velocities: bool, files: seq<(string, Source)>, geodetic: Xyz -> Geo, a: nat, b: nat)
    requires Loaded(env, fs, files, useCode, velocities).Ok?
    requires a < |files| && b < |files|
    requires Loaded(env, fs, files, useCode, velocities).value[a].Keys !! Loaded(env, fs, files, useCode, velocities).value[b].Keys
    ensures Comparison(env, fs, codes, codesCoordFile, useCode, velocities, files, geodetic) == Err(NoCommonCodes)
  {
    var ms := Loaded(env, fs, files, useCode, velocities).value;
    CommonIs(ms);
    assert forall k :: k in Common(ms) ==> k in ms[a] && k in ms[b];
    assert Common(ms) == {};
  }

  /** A code list that shares nothing with the common keys makes `compare`
      raise once the sources are read. */
  lemma CompareNoneSelected(env: Util.Env, fs: FileSystem, list: seq<string>, useCode: bool,
                            velocities: bool, files: seq<(string, Source)>, geodetic: Xyz -> Geo)
    requires Loaded(env, fs, files, useCode, velocities).Ok? && files != []
    requires Common(Loaded(env, fs, files, useCode, velocities).value) != {}
    requires forall k :: k in list ==> exists m :: 0 <= m < |files| && k !in Loaded(env, fs, files, useCode, velocities).value[m]
    ensures Comparison(env, fs, CodeList(list), None, useCode, velocities, files, geodetic) == Err(NoCodesSelected)
  {
    var ms := Loaded(env, fs, files, useCode, velocities).value;
    CommonIs(ms);
  }

  // ---------------------------------------------------------------------
  // The method

  /** Lines 113-189. Each row is built by `BuildRow`, the columns by
      `BuildColumns`; the DataFrame itself is left to the caller. */
  method Compare(env: Util.Env, fs: FileSystem, codes: Codes, codesCoordFile: Option<string>, useCode: bool,
                 velocities: bool, skipError: bool, files: seq<(string, Source)>, geodetic: Xyz -> Geo)
    returns (r: Result<Table>)
    requires DistinctNames(files)
    ensures r == Comparison(env, fs, codes, codesCoordFile, useCode, velocities, files, geodetic)
  {
    var failure, coords, usecodes, nfiles := LoadSources(env, fs, files, useCode, velocities, skipError);
    if failure.Some? {
      return Err(failure.value);
    }
    if nfiles == 0 {
      return Err(NoFiles);
    }
    if usecodes.None? || usecodes.value == {} {
      return Err(NoCommonCodes);
    }
    ghost var ms := Loaded(env, fs, files, useCode, velocities).value;
    var selected := SelectCodes(env, fs, usecodes.value, codes, codesCoordFile, useCode, skipError);
    if selected.Err? {
      return Err(selected.error);
    }
    if selected.value == {} {
      return Err(NoCodesSelected);
    }
    SelectedWithin(env, fs, usecodes.value, codes, codesCoordFile, useCode);
    var table := BuildTable(coords, selected.value, velocities, geodetic, files, ms);
    return Ok(table);
  }

  /** Lines 133-141: the `codes` and `codesCoordFile` filters. */
  method SelectCodes(env: Util.Env, fs: FileSystem, usecodes: set<string>, codes: Codes,
                     codesCoordFile: Option<string>, useCode: bool, skipError: bool) returns (r: Result<set<string>>)
    ensures r == Selected(env, fs, usecodes, codes, codesCoordFile, useCode)
  {
    var selected := usecodes;
    if codes.CodeText? {
      selected := selected * (set w | w in Split(codes.text));
    } else if codes.CodeList? {
      selected := selected * (set w | w in codes.list);
    }
    if codesCoordFile.Some? {
      var cfcodes := Read(env, fs, codesCoordFile.value, None, false, false, skipError, useCode);
      if cfcodes.Err? {
        return Err(cfcodes.error);
      }
      selected := selected * cfcodes.value.Keys;
    }
    return Ok(selected);
  }

  /** Lines 146-189: the sorted keys and source names, the rows and the
      columns. */
  method BuildTable(coords: map<string, map<string, StationCoord>>, selected: set<string>, velocities: bool,
                    geodetic: Xyz -> Geo, ghost files: seq<(string, Source)>, ghost ms: seq<map<string, StationCoord>>)
    returns (table: Table)
    requires |files| == |ms| > 0 && coords == Named(files, ms) && selected <= Common(ms)
    ensures table == Tabulate(files, ms, selected, velocities, geodetic)
  {
    var keys := Sorted(selected);
    var crdtypes := Sorted(coords.Keys);
    Covered(files, ms, selected, crdtypes, keys);
    var data := BuildRows(keys, crdtypes, coords, velocities, geodetic);
    var columns := BuildColumns(crdtypes, velocities);
    return Table(columns, data);
  }

  /** Lines 116-126: each source read in turn, `usecodes` narrowed to the
      keys seen in every source so far. */
  method LoadSources(env: Util.Env, fs: FileSystem, files: seq<(string, Source)>, useCode: bool,
                     velocities: bool, skipError: bool)
    returns (failure: Option<Error>, coords: map<string, map<string, StationCoord>>,
             usecodes: Option<set<string>>, nfiles: nat)
    ensures failure.Some? <==> Loaded(env, fs, files, useCode, velocities).Err?
    ensures failure.Some? ==> failure.value == Loaded(env, fs, files, useCode, velocities).error
    ensures failure.None? ==> nfiles == |files|
    ensures failure.None? ==> coords == Named(files, Loaded(env, fs, files, useCode, velocities).value)
    ensures failure.None? ==> usecodes == if files == [] then None else Some(Common(Loaded(env, fs, files, useCode, velocities).value))
  {
    failure, coords, usecodes, nfiles :=
      LoadEach(env, fs, files, useCode, velocities, skipError, (src: Source) => SourceCoords(env, fs, src, useCode, velocities));
  }

  /** The loop of lines 116-126, with `load` standing for the reads. */
  method LoadEach(env: Util.Env, fs: FileSystem, files: seq<(string, Source)>, useCode: bool, velocities: bool,
                  skipError: bool, ghost load: Source -> Result<map<string, StationCoord>>)
    returns (failure: Option<Error>, coords: map<string, map<string, StationCoord>>,
             usecodes: Option<set<string>>, nfiles: nat)
    requires Loads(load, env, fs, useCode, velocities)
    ensures failure.Some? <==> LoadedBy(files, load).Err?
    ensures failure.Some? ==> failure.value == LoadedBy(files, load).error
    ensures failure.None? ==> nfiles == |files|
    ensures failure.None? ==> coords == Named(files, LoadedBy(files, load).value)
    ensures failure.None? ==> usecodes == if files == [] then None else Some(Common(LoadedBy(files, load).value))
  {
    coords, usecodes, nfiles := map[], None, 0;
    for i := 0 to |files|
      invariant nfiles == i
      invariant LoadedBy(files[..i], load).Ok?
      invariant coords == Named(files[..i], LoadedBy(files[..i], load).value)
      invariant usecodes == if i == 0 then None else Some(Common(LoadedBy(files[..i], load).value))
    {
      nfiles := nfiles + 1;
      var (f, src) := files[i];
      var rd := LoadSource(env, fs, src, useCode, velocities, skipError, load);
      if rd.Err? {
        LoadedStops(files, i, load);
        return Some(rd.error), coords, usecodes, nfiles;
      }
      var crddata := rd.value;
      LoadedStep(files, i, load);
      NamedStep(files, i, LoadedBy(files[..i], load).value, crddata);
      CommonStep(LoadedBy(files[..i], load).value, crddata);
      coords := coords[f := crddata];
      if usecodes.None? {
        usecodes := Some(crddata.Keys);
      } else {
        usecodes := Some(usecodes.value * crddata.Keys);
      }
    }
    assert files[..|files|] == files;
    failure := None;
  }

  /** Lines 117-122 on one source: a file name is read, a dictionary is
      taken as it is. */
  method LoadSource(env: Util.Env, fs: FileSystem, src: Source, useCode: bool, velocities: bool, skipError: bool,
                    ghost load: Source -> Result<map<string, StationCoord>>)
    returns (r: Result<map<string, StationCoord>>)
    requires Loads(load, env, fs, useCode, velocities)
    ensures r == load(src)
  {
    assert load(src) == SourceCoords(env, fs, src, useCode, velocities);
    if src.Path? {
      r := Read(env, fs, src.path, None, velocities, false, skipError, useCode);
    } else {
      r := Ok(src.coords);
    }
  }

  /** One more source read without error extends the lists by it. */
  lemma LoadedStep(files: seq<(string, Source)>, i: nat, load: Source -> Result<map<string, StationCoord>>)
    requires i < |files| && LoadedBy(files[..i], load).Ok? && load(files[i].1).Ok?
    ensures LoadedBy(files[..i + 1], load) == Ok(LoadedBy(files[..i], load).value + [load(files[i].1).value])
  {
    assert files[..i + 1][..i] == files[..i];
  }

  lemma NamedStep(files: seq<(string, Source)>, i: nat, ms: seq<map<string, StationCoord>>, m: map<string, StationCoord>)
    requires i < |files| && |ms| == i
    ensures Named(files[..i + 1], ms + [m]) == Named(files[..i], ms)[files[i].0 := m]
  {
    assert files[..i + 1][..i] == files[..i];
    assert (ms + [m])[..i] == ms;
  }

  lemma CommonStep(ms: seq<map<string, StationCoord>>, m: map<string, StationCoord>)
    ensures Common(ms + [m]) == if ms == [] then m.Keys else Common(ms) * m.Keys
  {
    assert (ms + [m])[..|ms|] == ms;
  }

  /** A source whose read raises is the error of the whole loop. */
  lemma LoadedStops(files: seq<(string, Source)>, i: nat, load: Source -> Result<map<string, StationCoord>>)
    requires i < |files| && LoadedBy(files[..i], load).Ok? && load(files[i].1).Err?
    ensures LoadedBy(files, load) == Err(load(files[i].1).error)
  {
    assert files[..i + 1][..i] == files[..i];
    LoadedErrPersists(files, i + 1, load);
  }

  lemma {:induction false} LoadedErrPersists(files: seq<(string, Source)>, n: nat, load: Source -> Result<map<string, StationCoord>>)
    requires n <= |files| && LoadedBy(files[..n], load).Err?
    ensures LoadedBy(files, load) == LoadedBy(files[..n], load)
    decreases |files| - n
  {
    if n < |files| {
      assert files[..n + 1][..n] == files[..n];
      LoadedErrPersists(files, n + 1, load);
    } else {
      assert files[..n] == files;
    }
  }

  /** Lines 148-179 for every key. */
  method BuildRows(keys: seq<string>, crdtypes: seq<string>, coords: map<string, map<string, StationCoord>>,
                   velocities: bool, geodetic: Xyz -> Geo) returns (data: seq<seq<Entry>>)
    requires |crdtypes| > 0 && Covers(coords, crdtypes, keys)
    ensures data == Rows(keys, crdtypes, coords, velocities, geodetic)
  {
    data := [];
    for i := 0 to |keys|
      invariant Covers(coords, crdtypes, keys[..i])
      invariant data == Rows(keys[..i], crdtypes, coords, velocities, geodetic)
    {
      var code := keys[i];
      CoversStep(coords, crdtypes, keys, i);
      var cdata := CodeData(code, crdtypes, coords);
      var codedata := BuildRow(code, cdata, velocities, geodetic);
      data := data + [codedata];
    }
    assert keys[..|keys|] == keys;
  }

  lemma CoversStep(named: map<string, map<string, StationCoord>>, names: seq<string>, codes: seq<string>, i: nat)
    requires i < |codes| && Covers(named, names, codes)
    ensures Covers(named, names, codes[..i + 1]) && Covers(named, names, [codes[i]])
    ensures codes[..i + 1][..i] == codes[..i] && codes[..i + 1][i] == codes[i]
  {
    assert [codes[i]][0] == codes[i];
    forall j | 0 <= j <= i ensures codes[..i + 1][j] == codes[j] { }
  }

  /** Line 151: `cdata`, the key's entry in each source in `crdtypes` order. */
  method CodeData(code: string, crdtypes: seq<string>, coords: map<string, map<string, StationCoord>>)
    returns (cdata: seq<StationCoord>)
    requires Covers(coords, crdtypes, [code])
    ensures cdata == CData(code, crdtypes, coords)
  {
    cdata := [];
    assert [code][0] == code;
    for j := 0 to |crdtypes|
      invariant Covers(coords, crdtypes[..j], [code])
      invariant cdata == CData(code, crdtypes[..j], coords)
    {
      assert crdtypes[j] in coords && code in coords[crdtypes[j]];
      assert crdtypes[..j + 1][..j] == crdtypes[..j] && crdtypes[..j + 1][j] == crdtypes[j];
      cdata := cdata + [coords[crdtypes[j]][code]];
    }
    assert crdtypes[..|crdtypes|] == crdtypes;
  }

  /** Lines 149-178: `codedata` for one key. */
  method BuildRow(code: string, cdata: seq<StationCoord>, velocities: bool, geodetic: Xyz -> Geo)
    returns (codedata: seq<Entry>)
    requires |cdata| > 0
    ensures codedata == Row(code, cdata, velocities, geodetic)
  {
    var g := geodetic(cdata[0].xyz);
    var lon := g.lon;
    if lon < 0.0 {
      lon := lon + 360.0;
    }
    codedata := [Code(code), Num(lon), Num(g.lat), Num(g.hgt)];
    codedata := ExtendFlags(codedata, cdata);
    codedata := ExtendCoords(codedata, cdata, velocities);
    if |cdata| == 2 {
      codedata := codedata + DerivedCells(DiffColumns(velocities));
    }
  }

  /** Line 157. */
  method ExtendFlags(head: seq<Entry>, cdata: seq<StationCoord>) returns (codedata: seq<Entry>)
    ensures codedata == head + FlagCells(cdata)
  {
    codedata := head;
    for j := 0 to |cdata|
      invariant codedata == head + FlagCells(cdata[..j])
    {
      assert cdata[..j + 1][..j] == cdata[..j];
      codedata := codedata + [Flag(cdata[j].flag)];
    }
    assert cdata[..|cdata|] == cdata;
  }

  /** Lines 158-161. */
  method ExtendCoords(head: seq<Entry>, cdata: seq<StationCoord>, velocities: bool) returns (codedata: seq<Entry>)
    ensures codedata == head + CoordCells(cdata, velocities)
  {
    codedata := head;
    for j := 0 to |cdata|
      invariant codedata == head + CoordCells(cdata[..j], velocities)
    {
      var c := cdata[j];
      assert cdata[..j + 1][..j] == cdata[..j];
      var cells := [Coord(c.xyz.x), Coord(c.xyz.y), Coord(c.xyz.z)];
      if velocities {
        if c.vxyz.Some? {
          cells := cells + [Coord(c.vxyz.value.x), Coord(c.vxyz.value.y), Coord(c.vxyz.value.z)];
        } else {
          cells := cells + [NaN, NaN, NaN];
        }
      }
      assert cells == SourceCells(c, velocities);
      codedata := codedata + cells;
    }
    assert cdata[..|cdata|] == cdata;
  }

  /** Lines 180-189. */
  method BuildColumns(crdtypes: seq<string>, velocities: bool) returns (columns: seq<string>)
    ensures columns == Columns(crdtypes, velocities)
  {
    columns := ["code", "lon", "lat", "hgt"];
    columns := ExtendFlagColumns(columns, crdtypes);
    columns := ExtendCoordColumns(columns, crdtypes, velocities);
    if |crdtypes| == 2 {
      columns := columns + ["diff_X", "diff_Y", "diff_Z", "diff_E", "diff_N", "diff_U", "offset"];
      if velocities {
        columns := columns + ["diff_VX", "diff_VY", "diff_VZ", "diff_VE", "diff_VN", "diff_VU", "offsetV"];
      }
    }
  }

  /** Line 181. */
  method ExtendFlagColumns(head: seq<string>, crdtypes: seq<string>) returns (columns: seq<string>)
    ensures columns == head + FlagColumns(crdtypes)
  {
    columns := head;
    for j := 0 to |crdtypes|
      invariant columns == head + FlagColumns(crdtypes[..j])
    {
      assert crdtypes[..j + 1][..j] == crdtypes[..j];
      columns := columns + [crdtypes[j] + "_flg"];
    }
    assert crdtypes[..|crdtypes|] == crdtypes;
  }

  /** Lines 182-185. */
  method ExtendCoordColumns(head: seq<string>, crdtypes: seq<string>, velocities: bool) returns (columns: seq<string>)
    ensures columns == head + CoordColumns(crdtypes, velocities)
  {
    columns := head;
    for j := 0 to |crdtypes|
      invariant columns == head + CoordColumns(crdtypes[..j], velocities)
    {
      var t := crdtypes[j];
      assert crdtypes[..j + 1][..j] == crdtypes[..j];
      var group := [t + "_X", t + "_Y", t + "_Z"];
      if velocities {
        group := group + [t + "_VX", t + "_VY", t + "_VZ"];
      }
      columns := columns + group;
    }
    assert crdtypes[..|crdtypes|] == crdtypes;
  }
}
