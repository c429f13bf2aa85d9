/** CoordFile.py: `read` keys the stations of a Bernese coordinate file by
    name or by 4-character code, checks the datum epoch and attaches the
    velocities read from the matching velocity file; `compare` lines up
    several such files station by station. */
module CoordFile {
  import opened Base
  import opened Text
  import opened FortranLayout
  import opened FortranDecode
  import opened Fortran
  import opened CoordLines
  import Util

  /** The arguments of `datetime.datetime(year, mon, day, hour, min, sec)`. */
  datatype DateTime = DateTime(year: int, month: int, day: int, hour: int, minute: int, second: int)

  /** `StationCoord(id, code, name, datum, crddate, xyz, vxyz, flag)` as its
      constructor evidently means it: every argument stored under its own
      name. As written, lines 25 and 28 of CoordFile.py read the unbound
      names `crdate` and `self.flag`, so the constructor always raises; that
      record is not part of this model. */
  datatype StationCoord = StationCoord(
    id: int, code: string, name: string, datum: string, epoch: DateTime,
    xyz: Xyz, vxyz: Option<Xyz>, flag: string)

  // ---------------------------------------------------------------------
  // The velocity file name

  /** `re.sub(r'(?:\.CRD((?:\.gz)?))?$', r'.VEL\1', filename)` under
      Python 2: a trailing ".CRD" becomes ".VEL" and a trailing ".CRD.gz"
      becomes ".VEL.gz"; on any other name the only match is the empty one
      at the end, whose group \1 did not take part, and `re.sub` raises. */
  function VelocityName(path: string): Result<string> {
    if EndsWith(path, ".CRD.gz") then Ok(path[..|path| - 7] + ".VEL.gz")
    else if EndsWith(path, ".CRD") then Ok(path[..|path| - 4] + ".VEL")
    else Err(VelocityNameUnmatched(path))
  }

  /** The suffix is rewritten and the stem kept, with or without ".gz". */
  lemma VelocityNameOf(stem: string)
    ensures VelocityName(stem + ".CRD") == Ok(stem + ".VEL")
    ensures VelocityName(stem + ".CRD.gz") == Ok(stem + ".VEL.gz")
  {
    var a, b := stem + ".CRD", stem + ".CRD.gz";
    assert a[|a| - 1] == 'D';
    assert a[..|a| - 4] == stem && a[|a| - 4..] == ".CRD";
    assert b[..|b| - 7] == stem && b[|b| - 7..] == ".CRD.gz";
  }

  /** The match is case-sensitive: a lower-case ".crd" is not rewritten. */
  lemma VelocityNameCase(stem: string)
    ensures VelocityName(stem + ".crd") == Err(VelocityNameUnmatched(stem + ".crd"))
  {
    var a := stem + ".crd";
    assert a[|a| - 1] == 'd';
  }

  /** Only names ending in ".CRD" or ".CRD.gz" have a velocity name. */
  lemma VelocityNameOk(path: string)
    ensures VelocityName(path).Ok? <==> EndsWith(path, ".CRD") || EndsWith(path, ".CRD.gz")
  {
  }

  // ---------------------------------------------------------------------
  // The datum epoch

  /** n ASCII digits at index i. */
  predicate DigitsAt(e: string, i: nat, n: nat) {
    i + n <= |e| && AllDigits(e[i..i + n])
  }

  function ValueAt(e: string, i: nat, n: nat): (v: nat)
    requires DigitsAt(e, i, n)
    ensures v < Pow10(n)
  {
    DigitsBound(e[i..i + n]);
    DigitsValue(e[i..i + n])
  }

  predicate CharAt(e: string, i: nat, c: char) {
    i < |e| && e[i] == c
  }

  /** `re.match(r'(\d{4})\-(\d\d)-(\d\d)\s+(\d\d)\:(\d\d)\:(\d\d)', e)`
      and the six groups through `int`: the pattern is anchored at the
      start only, so anything may follow the seconds. The whitespace run
      is greedy, and what follows it must be a digit, so the first
      non-blank character after the date starts the time. */
  function EpochOf(e: string): (d: Option<DateTime>)
    ensures d.Some? ==> InRange(d.value)
  {
    if !(DigitsAt(e, 0, 4) && CharAt(e, 4, '-') && DigitsAt(e, 5, 2) && CharAt(e, 7, '-') && DigitsAt(e, 8, 2)) then None
    else
      var k := 10 + Util.SpaceRun(e, 10);
      if k == 10 || !(DigitsAt(e, k, 2) && CharAt(e, k + 2, ':') && DigitsAt(e, k + 3, 2)
                      && CharAt(e, k + 5, ':') && DigitsAt(e, k + 6, 2)) then None
      else
        assert Pow10(2) == 100 && Pow10(4) == 10000;
        Some(DateTime(ValueAt(e, 0, 4), ValueAt(e, 5, 2), ValueAt(e, 8, 2),
                      ValueAt(e, k, 2), ValueAt(e, k + 3, 2), ValueAt(e, k + 6, 2)))
  }

  function Pow10(n: nat): nat {
    if n == 0 then 1 else 10 * Pow10(n - 1)
  }

  lemma {:induction false} DigitsBound(s: string)
    requires AllDigits(s)
    ensures DigitsValue(s) < Pow10(|s|)
    decreases |s|
  {
    if s != [] {
      DigitsBound(s[..|s| - 1]);
      assert AllDigits(s[..|s| - 1]);
    }
  }

  /** n written with exactly w digits, leading zeros included. */
  function Digits(n: nat, w: nat): (s: string)
    ensures |s| == w
  {
    if w == 0 then [] else Digits(n / 10, w - 1) + [('0' as int + n % 10) as char]
  }

  lemma {:induction false} DigitsRoundTrip(n: nat, w: nat)
    requires n < Pow10(w)
    ensures AllDigits(Digits(n, w)) && DigitsValue(Digits(n, w)) == n
    decreases w
  {
    if w > 0 {
      DigitsRoundTrip(n / 10, w - 1);
      var s := Digits(n, w);
      assert s[..|s| - 1] == Digits(n / 10, w - 1);
      assert s[|s| - 1] as int - '0' as int == n % 10;
    }
  }

  predicate InRange(d: DateTime) {
    && 0 <= d.year < 10000 && 0 <= d.month < 100 && 0 <= d.day < 100
    && 0 <= d.hour < 100 && 0 <= d.minute < 100 && 0 <= d.second < 100
  }

  /** `str(datetime)` for the six fields: "YYYY-MM-DD HH:MM:SS". */
  function EpochText(d: DateTime): string
    requires InRange(d)
  {
    DateText(d) + " " + TimeText(d)
  }

  function DateText(d: DateTime): string
    requires InRange(d)
  {
    Digits(d.year, 4) + "-" + Digits(d.month, 2) + "-" + Digits(d.day, 2)
  }

  function TimeText(d: DateTime): string
    requires InRange(d)
  {
    Digits(d.hour, 2) + ":" + Digits(d.minute, 2) + ":" + Digits(d.second, 2)
  }

  lemma DateSlices(d: DateTime)
    requires InRange(d)
    ensures var e := DateText(d);
      && |e| == 10 && e[0..4] == Digits(d.year, 4) && e[4] == '-' && e[5..7] == Digits(d.month, 2)
      && e[7] == '-' && e[8..10] == Digits(d.day, 2)
  {
  }

  lemma TimeSlices(d: DateTime)
    requires InRange(d)
    ensures var e := TimeText(d);
      && |e| == 8 && e[0..2] == Digits(d.hour, 2) && e[2] == ':' && e[3..5] == Digits(d.minute, 2)
      && e[5] == ':' && e[6..8] == Digits(d.second, 2)
  {
  }

  lemma DigitsFields(d: DateTime)
    requires InRange(d)
    ensures AllDigits(Digits(d.year, 4)) && DigitsValue(Digits(d.year, 4)) == d.year
    ensures AllDigits(Digits(d.month, 2)) && DigitsValue(Digits(d.month, 2)) == d.month
    ensures AllDigits(Digits(d.day, 2)) && DigitsValue(Digits(d.day, 2)) == d.day
    ensures AllDigits(Digits(d.hour, 2)) && DigitsValue(Digits(d.hour, 2)) == d.hour
    ensures AllDigits(Digits(d.minute, 2)) && DigitsValue(Digits(d.minute, 2)) == d.minute
    ensures AllDigits(Digits(d.second, 2)) && DigitsValue(Digits(d.second, 2)) == d.second
  {
    assert Pow10(2) == 100 && Pow10(4) == 10000;
    DigitsRoundTrip(d.year, 4); DigitsRoundTrip(d.month, 2); DigitsRoundTrip(d.day, 2);
    DigitsRoundTrip(d.hour, 2); DigitsRoundTrip(d.minute, 2); DigitsRoundTrip(d.second, 2);
  }

  lemma SubSlice(e: string, i: nat, j: nat, a: nat, b: nat)
    requires i <= j <= |e| && a <= b <= j - i
    ensures e[i..j][a..b] == e[i + a..i + b]
  {
    assert forall t :: 0 <= t < b - a ==> e[i..j][a..b][t] == e[i + a + t];
  }

  lemma DateAt(e: string, d: DateTime)
    requires InRange(d) && |e| >= 10 && e[..10] == DateText(d)
    ensures e[0..4] == Digits(d.year, 4) && e[4] == '-' && e[5..7] == Digits(d.month, 2)
    ensures e[7] == '-' && e[8..10] == Digits(d.day, 2)
  {
    DateSlices(d);
    SubSlice(e, 0, 10, 0, 4);
    SubSlice(e, 0, 10, 5, 7);
    SubSlice(e, 0, 10, 8, 10);
    assert e[4] == e[..10][4] && e[7] == e[..10][7];
  }

  lemma TimeAt(e: string, d: DateTime)
    requires InRange(d) && |e| >= 19 && e[11..19] == TimeText(d)
    ensures e[11..13] == Digits(d.hour, 2) && e[13] == ':' && e[14..16] == Digits(d.minute, 2)
    ensures e[16] == ':' && e[17..19] == Digits(d.second, 2)
  {
    TimeSlices(d);
    SubSlice(e, 11, 19, 0, 2);
    SubSlice(e, 11, 19, 3, 5);
    SubSlice(e, 11, 19, 6, 8);
    assert e[13] == e[11..19][2] && e[16] == e[11..19][5];
  }

  /** The pattern read off a string laid out as "YYYY-MM-DD HH:MM:SS". */
  lemma EpochFromLayout(e: string, d: DateTime)
    requires InRange(d) && |e| >= 19
    requires e[..10] == DateText(d) && e[10] == ' ' && e[11..19] == TimeText(d)
    ensures EpochOf(e) == Some(d)
  {
    DigitsFields(d);
    DateAt(e, d);
    TimeAt(e, d);
    assert IsDigit(e[11..13][0]);
    assert Util.SpaceRun(e, 11) == 0;
    assert Util.SpaceRun(e, 10) == 1;
  }

  /** An epoch written as `str(datetime)` writes it, followed by anything,
      matches and gives back the six fields. */
  lemma EpochRoundTrip(d: DateTime, rest: string)
    requires InRange(d)
    ensures EpochOf(EpochText(d) + rest) == Some(d)
  {
    var e := EpochText(d) + rest;
    assert |DateText(d)| == 10 && |TimeText(d)| == 8;
    assert e[..10] == DateText(d) && e[10] == ' ' && e[11..19] == TimeText(d);
    EpochFromLayout(e, d);
  }

  /** `datetime`'s range checks: years 1 to 9999, months 1 to 12, days
      within the month (29 February in leap years), hours below 24,
      minutes and seconds below 60. */
  predicate LeapYear(y: int) {
    y % 4 == 0 && (y % 100 != 0 || y % 400 == 0)
  }

  function DaysIn(year: int, month: int): int
    requires 1 <= month <= 12
  {
    if month == 2 then (if LeapYear(year) then 29 else 28)
    else if month == 4 || month == 6 || month == 9 || month == 11 then 30
    else 31
  }

  predicate ValidDate(d: DateTime) {
    && 1 <= d.year <= 9999 && 1 <= d.month <= 12 && 1 <= d.day <= DaysIn(d.year, d.month)
    && 0 <= d.hour < 24 && 0 <= d.minute < 60 && 0 <= d.second < 60
  }

  // ---------------------------------------------------------------------
  // Keys and the maps filled by `read`

  /** `code if useCode else data.name`, where `code = data.name[:4]`. */
  function Key(name: string, useCode: bool): string {
    if useCode then Head(name, 4) else name
  }

  /** For each key, the index of the last station carrying it: the entry a
      dictionary filled in station order ends up holding. */
  function Latest(ss: seq<Station>, useCode: bool): (m: map<string, nat>)
    ensures forall k :: k in m ==> m[k] < |ss|
  {
    if ss == [] then map[]
    else Latest(ss[..|ss| - 1], useCode)[Key(ss[|ss| - 1].name, useCode) := |ss| - 1]
  }

  /** The keys are exactly the stations' keys. */
  lemma {:induction false} LatestKeys(ss: seq<Station>, useCode: bool)
    ensures forall k :: k in Latest(ss, useCode) <==> exists i :: 0 <= i < |ss| && Key(ss[i].name, useCode) == k
    decreases |ss|
  {
    if ss != [] {
      var init, s := ss[..|ss| - 1], ss[|ss| - 1];
      LatestKeys(init, useCode);
      var m := Latest(ss, useCode);
      assert m == Latest(init, useCode)[Key(s.name, useCode) := |ss| - 1];
      forall k | k in m
        ensures exists i :: 0 <= i < |ss| && Key(ss[i].name, useCode) == k
      {
        if k != Key(s.name, useCode) {
          assert k in Latest(init, useCode);
          var i :| 0 <= i < |init| && Key(init[i].name, useCode) == k;
          assert ss[i] == init[i];
        } else {
          assert Key(ss[|ss| - 1].name, useCode) == k;
        }
      }
      forall k | exists i :: 0 <= i < |ss| && Key(ss[i].name, useCode) == k
        ensures k in m
      {
        var i :| 0 <= i < |ss| && Key(ss[i].name, useCode) == k;
        if i < |init| {
          assert init[i] == ss[i];
          assert k in Latest(init, useCode);
        }
      }
    }
  }

  /** Each key leads to the last station that carries it. */
  lemma {:induction false} LatestLast(ss: seq<Station>, useCode: bool)
    ensures forall k :: k in Latest(ss, useCode) ==>
      var i := Latest(ss, useCode)[k];
      Key(ss[i].name, useCode) == k && forall j :: i < j < |ss| ==> Key(ss[j].name, useCode) != k
    decreases |ss|
  {
    if ss != [] {
      var init, s := ss[..|ss| - 1], ss[|ss| - 1];
      LatestLast(init, useCode);
      var m := Latest(ss, useCode);
      assert m == Latest(init, useCode)[Key(s.name, useCode) := |ss| - 1];
      forall k | k in m
        ensures Key(ss[m[k]].name, useCode) == k && forall j :: m[k] < j < |ss| ==> Key(ss[j].name, useCode) != k
      {
        if k != Key(s.name, useCode) {
          var i := Latest(init, useCode)[k];
          assert ss[i] == init[i];
          forall j | i < j < |ss|
            ensures Key(ss[j].name, useCode) != k
          {
            if j < |init| {
              assert ss[j] == init[j];
            }
          }
        }
      }
    }
  }

  /** `veldata` after the velocity loop: each station's coordinates under
      its key, a later station replacing an earlier one. */
  function VelocityMap(ss: seq<Station>, useCode: bool): map<string, Xyz> {
    var last := Latest(ss, useCode);
    map k | k in last :: ss[last[k]].xyz
  }

  /** `StationCoord(data.id, code, data.name, datum, crddate, xyz,
      veldata.get(key), data.flag)`. */
  function CoordOf(s: Station, datum: string, epoch: DateTime, vel: map<string, Xyz>, useCode: bool): StationCoord {
    var key := Key(s.name, useCode);
    StationCoord(s.id, Head(s.name, 4), s.name, datum, epoch, s.xyz, if key in vel then Some(vel[key]) else None, s.flag)
  }

  /** `coords` after the station loop. */
  function CoordMap(ss: seq<Station>, datum: string, epoch: DateTime, vel: map<string, Xyz>, useCode: bool)
    : map<string, StationCoord>
  {
    var last := Latest(ss, useCode);
    map k | k in last :: CoordOf(ss[last[k]], datum, epoch, vel, useCode)
  }

  /** One more station: its key now holds its own entry. */
  lemma LatestSnoc(ss: seq<Station>, s: Station, useCode: bool)
    ensures Latest(ss + [s], useCode) == Latest(ss, useCode)[Key(s.name, useCode) := |ss|]
  {
    assert (ss + [s])[..|ss|] == ss;
  }

  lemma VelocityMapSnoc(ss: seq<Station>, s: Station, useCode: bool)
    ensures VelocityMap(ss + [s], useCode) == VelocityMap(ss, useCode)[Key(s.name, useCode) := s.xyz]
  {
    LatestSnoc(ss, s, useCode);
    var a, b := VelocityMap(ss + [s], useCode), VelocityMap(ss, useCode)[Key(s.name, useCode) := s.xyz];
    assert a.Keys == b.Keys;
    forall k | k in a
      ensures a[k] == b[k]
    {
      if k != Key(s.name, useCode) {
        assert (ss + [s])[Latest(ss, useCode)[k]] == ss[Latest(ss, useCode)[k]];
      }
    }
  }

  lemma CoordMapSnoc(ss: seq<Station>, s: Station, datum: string, epoch: DateTime, vel: map<string, Xyz>, useCode: bool)
    ensures CoordMap(ss + [s], datum, epoch, vel, useCode)
         == CoordMap(ss, datum, epoch, vel, useCode)[Key(s.name, useCode) := CoordOf(s, datum, epoch, vel, useCode)]
  {
    LatestSnoc(ss, s, useCode);
    var a := CoordMap(ss + [s], datum, epoch, vel, useCode);
    var b := CoordMap(ss, datum, epoch, vel, useCode)[Key(s.name, useCode) := CoordOf(s, datum, epoch, vel, useCode)];
    assert a.Keys == b.Keys;
    forall k | k in a
      ensures a[k] == b[k]
    {
      if k != Key(s.name, useCode) {
        assert (ss + [s])[Latest(ss, useCode)[k]] == ss[Latest(ss, useCode)[k]];
      }
    }
  }

  /** `coords` has one key per distinct station key. */
  lemma CoordMapKeys(ss: seq<Station>, datum: string, epoch: DateTime, vel: map<string, Xyz>, useCode: bool)
    ensures forall k :: k in CoordMap(ss, datum, epoch, vel, useCode) <==> exists i :: 0 <= i < |ss| && Key(ss[i].name, useCode) == k
  {
    LatestKeys(ss, useCode);
  }

  /** The entry under a key is made from the last station line carrying
      it, with the velocity stored under the same key when there is one. */
  lemma CoordMapAt(ss: seq<Station>, datum: string, epoch: DateTime, vel: map<string, Xyz>, useCode: bool, i: nat)
    requires i < |ss| && forall j :: i < j < |ss| ==> Key(ss[j].name, useCode) != Key(ss[i].name, useCode)
    ensures var key := Key(ss[i].name, useCode); var m := CoordMap(ss, datum, epoch, vel, useCode);
      && key in m && m[key].id == ss[i].id && m[key].name == ss[i].name && m[key].code == Head(ss[i].name, 4)
      && m[key].xyz == ss[i].xyz && m[key].flag == ss[i].flag && m[key].datum == datum && m[key].epoch == epoch
      && m[key].vxyz == (if key in vel then Some(vel[key]) else None)
  {
    LatestAt(ss, useCode, i);
  }

  /** A station no later station shares its key with is the one its key leads to. */
  lemma LatestAt(ss: seq<Station>, useCode: bool, i: nat)
    requires i < |ss| && forall j :: i < j < |ss| ==> Key(ss[j].name, useCode) != Key(ss[i].name, useCode)
    ensures Key(ss[i].name, useCode) in Latest(ss, useCode) && Latest(ss, useCode)[Key(ss[i].name, useCode)] == i
  {
    LatestKeys(ss, useCode);
    LatestLast(ss, useCode);
    var k := Key(ss[i].name, useCode);
    assert k in Latest(ss, useCode);
    assert Key(ss[i].name, useCode) == k;
  }

  /** Each entry sits under its own station's key and carries the velocity
      stored under that key, if any. */
  lemma CoordMapVelocity(ss: seq<Station>, datum: string, epoch: DateTime, vel: map<string, Xyz>, useCode: bool)
    ensures var m := CoordMap(ss, datum, epoch, vel, useCode);
      forall k :: k in m ==> Key(m[k].name, useCode) == k && m[k].vxyz == (if k in vel then Some(vel[k]) else None)
  {
    LatestLast(ss, useCode);
  }

  /** `veldata` holds one entry per distinct key of the velocity file: the
      coordinates of the last line carrying that key. */
  lemma VelocityMapAt(ss: seq<Station>, useCode: bool, i: nat)
    requires i < |ss| && forall j :: i < j < |ss| ==> Key(ss[j].name, useCode) != Key(ss[i].name, useCode)
    ensures Key(ss[i].name, useCode) in VelocityMap(ss, useCode)
    ensures VelocityMap(ss, useCode)[Key(ss[i].name, useCode)] == ss[i].xyz
  {
    LatestAt(ss, useCode, i);
  }

  lemma VelocityMapKeys(ss: seq<Station>, useCode: bool)
    ensures forall k :: k in VelocityMap(ss, useCode) <==> exists i :: 0 <= i < |ss| && Key(ss[i].name, useCode) == k
  {
    LatestKeys(ss, useCode);
  }

  // ---------------------------------------------------------------------
  // `read`

  /** The velocity file: `velocityFilename` as given, else the name derived
      from the expanded coordinate file name. */
  function VelocityFile(path: string, velocityFilename: Option<string>): Result<string> {
    if velocityFilename.Some? then Ok(velocityFilename.value) else VelocityName(path)
  }

  /** The velocity loop run to its end: `readfile` skips six lines, blank
      lines and lines that fail to decode. */
  function Velocities(fs: FileSystem, name: string, useCode: bool): Result<map<string, Xyz>> {
    if name !in fs then Err(FileNotFound(name))
    else Ok(VelocityMap(Stations(Drop(fs[name], 6)), useCode))
  }

  /** `veldata` once lines 54-65 have run, or the exception they let out. */
  function VelocityData(fs: FileSystem, path: string, velocityFilename: Option<string>,
                        velocities: bool, tryVelocities: bool, useCode: bool): Result<map<string, Xyz>>
  {
    if !(velocities || tryVelocities || velocityFilename.Some?) then Ok(map[])
    else
      var name := VelocityFile(path, velocityFilename);
      var loaded := if name.Err? then Err(name.error) else Velocities(fs, name.value, useCode);
      if loaded.Err? && tryVelocities then Ok(map[]) else loaded
  }

  /** What `read` returns or raises, in the order the source checks:
      the velocity file first, then opening the coordinate file, then the
      datum epoch's pattern and the date it names. */
  function ReadCoords(env: Util.Env, fs: FileSystem, filename: string, velocityFilename: Option<string>,
                      velocities: bool, tryVelocities: bool, useCode: bool): Result<map<string, StationCoord>>
  {
    var path := Util.ExpandPath(env, filename);
    var vel := VelocityData(fs, path, velocityFilename, velocities, tryVelocities, useCode);
    if vel.Err? then Err(vel.error)
    else if path !in fs then Err(FileNotFound(path))
    else
      var l := LineAt(fs[path], 2);
      var epoch := EpochField(l);
      var date := EpochOf(epoch);
      if date.None? then Err(InvalidDatumEpoch(epoch, path))
      else if !ValidDate(date.value) then Err(InvalidDate(epoch))
      else Ok(CoordMap(Stations(Drop(fs[path], 3)), DatumField(l), date.value, vel.value, useCode))
  }

  /** Lines 38-98, with the intended `StationCoord`: the record loop then
      cannot raise (every decoded line makes a record), so `skipError`
      changes nothing. With the constructor as written, the first decoded
      station line raises `NameError`, which `read` propagates, or, with
      `skipError`, swallows by returning an empty map. */
  method Read(env: Util.Env, fs: FileSystem, filename: string, velocityFilename: Option<string>,
              velocities: bool, tryVelocities: bool, skipError: bool, useCode: bool)
    returns (r: Result<map<string, StationCoord>>)
    ensures r == ReadCoords(env, fs, filename, velocityFilename, velocities, tryVelocities, useCode)
  {
    var path := Util.ExpandPath(env, filename);
    var dtmfmt, crdfmt := Formats();
    var vel := LoadVelocityData(crdfmt, fs, path, velocityFilename, velocities, tryVelocities, useCode);
    if vel.Err? {
      return Err(vel.error);
    }
    if path !in fs {
      return Err(FileNotFound(path));
    }
    var lines := fs[path];
    var datum, epoch := ReadDatum(dtmfmt, LineAt(lines, 2));
    var date := EpochOf(epoch);
    if date.None? {
      return Err(InvalidDatumEpoch(epoch, path));
    }
    if !ValidDate(date.value) {
      return Err(InvalidDate(epoch));
    }
    var records, failure := crdfmt.ReadIter(Drop(lines, 3), true, true);
    StreamStations(Drop(lines, 3), records, failure);
    var coords := Collect(StationsOf(records), datum, date.value, vel.value, useCode);
    return Ok(coords);
  }

  /** Lines 51-52: the datum-line and station-line layouts. */
  method Formats() returns (dtmfmt: Format, crdfmt: Format)
    ensures dtmfmt.Valid() && dtmfmt.State() == DatumLayout()
    ensures crdfmt.Valid() && crdfmt.State() == CoordLayout()
  {
    var made := Format.New(DatumText, Some(DatumNames), true);
    assert made.Ok? && made.value.State() == DatumLayout() by { DatumCompiles(); }
    dtmfmt := made.value;
    made := Format.New(CoordText, Some(CoordNames), true);
    assert made.Ok? && made.value.State() == CoordLayout() by { CoordCompiles(); }
    crdfmt := made.value;
  }

  /** Lines 76-79: the third line read through the datum layout. */
  method ReadDatum(dtmfmt: Format, l: string) returns (datum: string, epoch: string)
    requires dtmfmt.Valid() && dtmfmt.State() == DatumLayout()
    ensures datum == DatumField(l) && epoch == EpochField(l)
  {
    var dtm := dtmfmt.Read(l);
    DatumDecodes(l);
    datum, epoch := dtm.value.values[0].s, dtm.value.values[1].s;
  }

  /** Lines 54-65: `veldata`, or the exception let out of the `try`. */
  method LoadVelocityData(crdfmt: Format, fs: FileSystem, path: string, velocityFilename: Option<string>,
                          velocities: bool, tryVelocities: bool, useCode: bool) returns (r: Result<map<string, Xyz>>)
    requires crdfmt.Valid() && crdfmt.State() == CoordLayout()
    ensures r == VelocityData(fs, path, velocityFilename, velocities, tryVelocities, useCode)
  {
    if !(velocities || tryVelocities || velocityFilename.Some?) {
      return Ok(map[]);
    }
    var name := VelocityFile(path, velocityFilename);
    if name.Err? {
      r := Err(name.error);
    } else {
      r := LoadVelocities(crdfmt, fs, name.value, useCode);
    }
    if r.Err? && tryVelocities {
      r := Ok(map[]);
    }
  }

  /** The records `readiter`/`readfile` yield with `skipErrors` and
      `skipBlanks` are the station lines' records, and nothing fails. */
  lemma StreamStations(lines: seq<string>, records: seq<Record>, failure: Option<Error>)
    requires WellFormed(CoordLayout())
    requires Stream(records, failure) == Iterate(CoordLayout(), lines, true, true)
    ensures failure.None? && AllStations(records) && StationsOf(records) == Stations(lines)
  {
    IterateSkipping(CoordLayout(), lines, true);
    DecodedStations(lines);
  }

  lemma TakeSnoc<T>(s: seq<T>, i: nat)
    requires i < |s|
    ensures s[..i + 1] == s[..i] + [s[i]]
  {
  }

  /** Lines 59-62: `readfile` and the loop filling `veldata`. */
  method LoadVelocities(crdfmt: Format, fs: FileSystem, name: string, useCode: bool) returns (r: Result<map<string, Xyz>>)
    requires crdfmt.Valid() && crdfmt.State() == CoordLayout()
    ensures r == Velocities(fs, name, useCode)
  {
    var records, failure := crdfmt.ReadFile(fs, name, true, 6, true);
    if name !in fs {
      return Err(failure.value);
    }
    StreamStations(Drop(fs[name], 6), records, failure);
    var ss := StationsOf(records);
    var veldata: map<string, Xyz> := map[];
    for i := 0 to |ss|
      invariant veldata == VelocityMap(ss[..i], useCode)
    {
      var data := ss[i];
      VelocityMapSnoc(ss[..i], data, useCode);
      TakeSnoc(ss, i);
      veldata := veldata[Key(data.name, useCode) := data.xyz];
    }
    assert ss[..|ss|] == ss;
    return Ok(veldata);
  }

  /** Lines 87-92: the loop filling `coords`. */
  method Collect(ss: seq<Station>, datum: string, epoch: DateTime, veldata: map<string, Xyz>, useCode: bool)
    returns (coords: map<string, StationCoord>)
    ensures coords == CoordMap(ss, datum, epoch, veldata, useCode)
  {
    coords := map[];
    for i := 0 to |ss|
      invariant coords == CoordMap(ss[..i], datum, epoch, veldata, useCode)
    {
      var data := ss[i];
      var key := Key(data.name, useCode);
      var vxyz := if key in veldata then Some(veldata[key]) else None;
      CoordMapSnoc(ss[..i], data, datum, epoch, veldata, useCode);
      TakeSnoc(ss, i);
      coords := coords[key := StationCoord(data.id, Head(data.name, 4), data.name, datum, epoch, data.xyz, vxyz, data.flag)];
    }
    assert ss[..|ss|] == ss;
  }

  // ---------------------------------------------------------------------
  // Properties of `read`

  /** The keys of the result are exactly the keys of the station lines
      that decode, after the three header lines. */
  lemma ReadKeys(env: Util.Env, fs: FileSystem, filename: string, velocityFilename: Option<string>,
                 velocities: bool, tryVelocities: bool, useCode: bool)
    requires ReadCoords(env, fs, filename, velocityFilename, velocities, tryVelocities, useCode).Ok?
    ensures Util.ExpandPath(env, filename) in fs
    ensures var ss := Stations(Drop(fs[Util.ExpandPath(env, filename)], 3));
      var m := ReadCoords(env, fs, filename, velocityFilename, velocities, tryVelocities, useCode).value;
      forall k :: k in m <==> exists i :: 0 <= i < |ss| && Key(ss[i].name, useCode) == k
  {
    var path := Util.ExpandPath(env, filename);
    var l := LineAt(fs[path], 2);
    var vel := VelocityData(fs, path, velocityFilename, velocities, tryVelocities, useCode);
    CoordMapKeys(Stations(Drop(fs[path], 3)), DatumField(l), EpochOf(EpochField(l)).value, vel.value, useCode);
  }

  /** Without velocity loading every entry's `vxyz` is `None`. */
  lemma ReadWithoutVelocities(env: Util.Env, fs: FileSystem, filename: string, useCode: bool)
    requires ReadCoords(env, fs, filename, None, false, false, useCode).Ok?
    ensures var m := ReadCoords(env, fs, filename, None, false, false, useCode).value;
      forall k :: k in m ==> m[k].vxyz.None?
  {
    var path := Util.ExpandPath(env, filename);
    var l := LineAt(fs[path], 2);
    CoordMapVelocity(Stations(Drop(fs[path], 3)), DatumField(l), EpochOf(EpochField(l)).value, map[], useCode);
  }

  /** With velocity loading on and `tryVelocities` off, a velocity file
      that cannot be named or opened is the error `read` raises. */
  lemma ReadVelocityFailure(env: Util.Env, fs: FileSystem, filename: string, velocityFilename: Option<string>,
                            useCode: bool)
    requires var name := VelocityFile(Util.ExpandPath(env, filename), velocityFilename);
      name.Err? || name.value !in fs
    ensures var name := VelocityFile(Util.ExpandPath(env, filename), velocityFilename);
      ReadCoords(env, fs, filename, velocityFilename, true, false, useCode)
        == Err(if name.Err? then name.error else FileNotFound(name.value))
  {
  }

  /** With `tryVelocities` a velocity file that cannot be named or opened
      is ignored: `read` answers as it does without velocities. */
  lemma ReadTryVelocities(env: Util.Env, fs: FileSystem, filename: string, velocityFilename: Option<string>,
                          velocities: bool, useCode: bool)
    requires var name := VelocityFile(Util.ExpandPath(env, filename), velocityFilename);
      name.Err? || name.value !in fs
    ensures ReadCoords(env, fs, filename, velocityFilename, velocities, true, useCode)
         == ReadCoords(env, fs, filename, None, false, false, useCode)
  {
  }

  /** A datum line whose epoch field does not match the pattern makes
      `read` raise, naming the epoch and the expanded path. */
  lemma ReadBadEpoch(env: Util.Env, fs: FileSystem, filename: string, useCode: bool)
    requires Util.ExpandPath(env, filename) in fs
    requires EpochOf(EpochField(LineAt(fs[Util.ExpandPath(env, filename)], 2))).None?
    ensures var path := Util.ExpandPath(env, filename);
      ReadCoords(env, fs, filename, None, false, false, useCode)
        == Err(InvalidDatumEpoch(EpochField(LineAt(fs[path], 2)), path))
  {
  }

  /** A datum line whose epoch field is a valid `str(datetime)` gives every
      entry that date and the datum field. */
  lemma ReadEpoch(env: Util.Env, fs: FileSystem, filename: string, useCode: bool, d: DateTime, rest: string)
    requires Util.ExpandPath(env, filename) in fs
    requires InRange(d) && ValidDate(d)
    requires EpochField(LineAt(fs[Util.ExpandPath(env, filename)], 2)) == EpochText(d) + rest
    ensures ReadCoords(env, fs, filename, None, false, false, useCode).Ok?
    ensures var m := ReadCoords(env, fs, filename, None, false, false, useCode).value;
      var l := LineAt(fs[Util.ExpandPath(env, filename)], 2);
      forall k :: k in m ==> m[k].epoch == d && m[k].datum == DatumField(l)
  {
    EpochRoundTrip(d, rest);
  }
}
