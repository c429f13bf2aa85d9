/** Path helpers of Util.py: `${P}`, `${U}` and `${X}` token expansion, the
    user file path, and the campaign directory named on the first
    `ACTIVE_CAMPAIGN` line of the user's menu file. The environment values
    the module reads at import time are a parameter here. */
module Util {
  import opened Base
  import opened Text

  /** The values of the environment variables P, U and X, '' when unset. */
  datatype Env = Env(p: string, u: string, x: string)

  /** `expandpath(path)`: the three substitutions, in the order P, U, X. */
  function ExpandPath(env: Env, path: string): string {
    Replace(Replace(Replace(path, "${P}", env.p), "${U}", env.u), "${X}", env.x)
  }

  /** A path holding none of the three tokens is returned unchanged. */
  lemma ExpandPathPlain(env: Env, path: string)
    requires !Occurs("${P}", path) && !Occurs("${U}", path) && !Occurs("${X}", path)
    ensures ExpandPath(env, path) == path
  {
    ReplaceAbsent(path, "${P}", env.p);
    ReplaceAbsent(path, "${U}", env.u);
    ReplaceAbsent(path, "${X}", env.x);
  }

  /** A leading `${P}` becomes the value of P, and what that value holds is
      expanded in turn by the U and X substitutions that follow. */
  lemma ExpandPathLeadingP(env: Env, rest: string)
    requires !Occurs("${P}", rest)
    requires !Occurs("${U}", env.p + rest) && !Occurs("${X}", env.p + rest)
    ensures ExpandPath(env, "${P}" + rest) == env.p + rest
  {
    var s := "${P}" + rest;
    assert s[..4] == "${P}" && s[4..] == rest;
    ReplaceAbsent(rest, "${P}", env.p);
    assert Replace(s, "${P}", env.p) == env.p + rest;
    ReplaceAbsent(env.p + rest, "${U}", env.u);
    ReplaceAbsent(env.p + rest, "${X}", env.x);
  }

  /** The order matters: a value of P that starts with `${U}` has that
      token expanded by the substitution that follows. */
  lemma ExpandPathOrder(env: Env, q: string, rest: string)
    requires env.p == "${U}" + q
    requires !Occurs("${P}", rest) && !Occurs("${U}", q + rest)
    requires !Occurs("${X}", env.u + q + rest)
    ensures ExpandPath(env, "${P}" + rest) == env.u + q + rest
  {
    ReplaceLeading("${P}", rest, env.p);
    ReplaceAbsent(rest, "${P}", env.p);
    assert env.p + rest == "${U}" + (q + rest);
    ReplaceLeading("${U}", q + rest, env.u);
    ReplaceAbsent(q + rest, "${U}", env.u);
    assert env.u + (q + rest) == env.u + q + rest;
    ReplaceAbsent(env.u + q + rest, "${X}", env.x);
  }

  /** `os.path.join(a, *parts)` on POSIX: an absolute part restarts the
      path; otherwise a '/' is inserted unless the path is empty or already
      ends with one. */
  function PathJoin(a: string, parts: seq<string>): string
    decreases |parts|
  {
    if parts == [] then a
    else
      var b := parts[0];
      var next := if StartsWith(b, "/") then b
                  else if a == [] || EndsWith(a, "/") then a + b
                  else a + "/" + b;
      PathJoin(next, parts[1..])
  }

  /** Joining relative parts onto a non-empty path keeps that path as a
      prefix, and never yields ''. */
  lemma {:induction false} PathJoinPrefix(a: string, parts: seq<string>)
    requires a != []
    requires forall k :: 0 <= k < |parts| ==> !StartsWith(parts[k], "/")
    ensures |a| <= |PathJoin(a, parts)| && PathJoin(a, parts)[..|a|] == a
    decreases |parts|
  {
    if parts != [] {
      var b := parts[0];
      var next := if EndsWith(a, "/") then a + b else a + "/" + b;
      PathJoinPrefix(next, parts[1..]);
      assert next[..|a|] == a;
      assert PathJoin(a, parts)[..|a|] == PathJoin(next, parts[1..])[..|next|][..|a|];
    }
  }

  /** `userfile(*names)`. */
  function UserFile(env: Env, names: seq<string>): (path: string)
    ensures env.u == [] <==> path == []
  {
    if env.u == [] then []
    else
      var path := PathJoin(env.u, names);
      NonEmptyJoin(env.u, names);
      path
  }

  /** A non-empty path joined with anything is non-empty. */
  lemma {:induction false} NonEmptyJoin(a: string, parts: seq<string>)
    requires a != []
    ensures PathJoin(a, parts) != []
    decreases |parts|
  {
    if parts != [] {
      var b := parts[0];
      if StartsWith(b, "/") {
        NonEmptyJoin(b, parts[1..]);
      } else if EndsWith(a, "/") {
        NonEmptyJoin(a + b, parts[1..]);
      } else {
        NonEmptyJoin(a + "/" + b, parts[1..]);
      }
    }
  }

  /** The relative parts of `userfile` stay under the user directory. */
  lemma UserFileUnder(env: Env, names: seq<string>)
    requires env.u != []
    requires forall k :: 0 <= k < |names| ==> !StartsWith(names[k], "/")
    ensures StartsWith(UserFile(env, names), env.u)
  {
    PathJoinPrefix(env.u, names);
  }

  // ---------------------------------------------------------------------
  // `re.match(r'\s*ACTIVE_CAMPAIGN\s+\d+\s+\"([^\"]*)\"\s*$', l)`

  /** Length of the run of whitespace at index i. */
  function SpaceRun(s: string, i: nat): (n: nat)
    requires i <= |s|
    ensures i + n <= |s| && (i + n < |s| ==> !IsSpace(s[i + n]))
    decreases |s| - i
  {
    if i < |s| && IsSpace(s[i]) then 1 + SpaceRun(s, i + 1) else 0
  }

  /** The run counted is all whitespace. */
  lemma {:induction false} SpaceRunAll(s: string, i: nat)
    requires i <= |s|
    ensures forall m :: i <= m < i + SpaceRun(s, i) ==> IsSpace(s[m])
    decreases |s| - i
  {
    if i < |s| && IsSpace(s[i]) {
      SpaceRunAll(s, i + 1);
    }
  }

  const Keyword := "ACTIVE_CAMPAIGN"

  /** The quoted directory of an `ACTIVE_CAMPAIGN` line, or none when the
      line does not match: indentation, the keyword, then the rest. */
  function CampaignDir(l: string): (dir: Option<string>)
    ensures dir.Some? ==> '"' !in dir.value
  {
    var t := l[SpaceRun(l, 0)..];
    if StartsWith(t, Keyword) then NumberedDir(t[|Keyword|..]) else None
  }

  /** After the keyword: blanks, digits, blanks, then the quoted part. */
  function NumberedDir(r: string): (dir: Option<string>)
    ensures dir.Some? ==> '"' !in dir.value
  {
    var s1 := SpaceRun(r, 0);
    var r2 := r[s1..];
    var d := DigitRun(r2, 0);
    var r3 := r2[d..];
    var s2 := SpaceRun(r3, 0);
    var r4 := r3[s2..];
    if s1 == 0 || d == 0 || s2 == 0 || r4 == [] || r4[0] != '"' then None
    else QuotedDir(r4[1..])
  }

  /** After the opening quote: the text up to the next quote, which must be
      followed by whitespace alone. */
  function QuotedDir(r: string): (dir: Option<string>)
    ensures dir.Some? ==> '"' !in dir.value
  {
    var e := IndexFrom(r, 0, '"');
    IndexFromClear(r, 0, '"');
    if e < |r| && AllSpace(r[e + 1..]) then Some(r[..e]) else None
  }

  /** A menu line as written: optional indentation, the keyword, blanks,
      a campaign number, blanks, the quoted directory and trailing
      whitespace (the line terminator included). */
  function CampaignLine(indent: string, gap1: string, number: string, gap2: string, dir: string, tail: string): string {
    indent + (Keyword + (gap1 + (number + (gap2 + ("\"" + (dir + ("\"" + tail)))))))
  }

  lemma {:induction false} SpaceRunFront(w: string, rest: string)
    requires AllSpace(w) && (rest == [] || !IsSpace(rest[0]))
    ensures SpaceRun(w + rest, 0) == |w| && (w + rest)[|w|..] == rest
    decreases |w|
  {
    if w != [] {
      SpaceRunFront(w[1..], rest);
      assert (w + rest)[1..] == w[1..] + rest;
      SpaceRunShift(w + rest, 0);
    }
  }

  lemma SpaceRunShift(s: string, i: nat)
    requires i < |s| && IsSpace(s[i])
    ensures SpaceRun(s, i) == 1 + SpaceRun(s[1..], i)
    decreases |s| - i
  {
    if i + 1 < |s| && IsSpace(s[i + 1]) {
      SpaceRunShift(s, i + 1);
    }
  }

  lemma {:induction false} DigitRunFront(w: string, rest: string)
    requires AllDigits(w) && (rest == [] || !IsDigit(rest[0]))
    ensures DigitRun(w + rest, 0) == |w| && (w + rest)[|w|..] == rest
    decreases |w|
  {
    if w != [] {
      DigitRunFront(w[1..], rest);
      assert (w + rest)[1..] == w[1..] + rest;
      DigitRunShift(w + rest, 0);
    }
  }

  lemma DigitRunShift(s: string, i: nat)
    requires i < |s| && IsDigit(s[i])
    ensures DigitRun(s, i) == 1 + DigitRun(s[1..], i)
    decreases |s| - i
  {
    if i + 1 < |s| && IsDigit(s[i + 1]) {
      DigitRunShift(s, i + 1);
    }
  }

  lemma {:induction false} QuoteFromFront(w: string, rest: string)
    requires '"' !in w && rest != [] && rest[0] == '"'
    ensures IndexFrom(w + rest, 0, '"') == |w|
    decreases |w|
  {
    if w != [] {
      QuoteFromFront(w[1..], rest);
      assert (w + rest)[1..] == w[1..] + rest;
      QuoteFromShift(w + rest, 0);
    }
  }

  lemma QuoteFromShift(s: string, i: nat)
    requires i < |s| && s[i] != '"'
    ensures IndexFrom(s, i, '"') == 1 + IndexFrom(s[1..], i, '"')
    decreases |s| - i
  {
    if i + 1 < |s| && s[i + 1] != '"' {
      QuoteFromShift(s, i + 1);
    }
  }

  /** Every well-formed campaign line yields its quoted directory. */
  lemma CampaignDirOfLine(indent: string, gap1: string, number: string, gap2: string, dir: string, tail: string)
    requires AllSpace(indent) && AllSpace(gap1) && AllSpace(gap2) && AllSpace(tail)
    requires gap1 != [] && gap2 != [] && number != [] && AllDigits(number) && '"' !in dir
    ensures CampaignDir(CampaignLine(indent, gap1, number, gap2, dir, tail)) == Some(dir)
  {
    var r1 := gap1 + (number + (gap2 + ("\"" + (dir + ("\"" + tail)))));
    var r0 := Keyword + r1;
    SpaceRunFront(indent, r0);
    assert StartsWith(r0, Keyword) && r0[|Keyword|..] == r1;
    NumberedDirOf(gap1, number, gap2, dir, tail);
  }

  lemma NumberedDirOf(gap1: string, number: string, gap2: string, dir: string, tail: string)
    requires AllSpace(gap1) && AllSpace(gap2) && AllSpace(tail)
    requires gap1 != [] && gap2 != [] && number != [] && AllDigits(number) && '"' !in dir
    ensures NumberedDir(gap1 + (number + (gap2 + ("\"" + (dir + ("\"" + tail)))))) == Some(dir)
  {
    var r5 := dir + ("\"" + tail);
    var r4 := "\"" + r5;
    var r3 := gap2 + r4;
    var r2 := number + r3;
    SpaceRunFront(gap1, r2);
    DigitRunFront(number, r3);
    SpaceRunFront(gap2, r4);
    assert r4[1..] == r5;
    QuotedDirOf(dir, tail);
  }

  lemma QuotedDirOf(dir: string, tail: string)
    requires AllSpace(tail) && '"' !in dir
    ensures QuotedDir(dir + ("\"" + tail)) == Some(dir)
  {
    var r6 := "\"" + tail;
    QuoteFromFront(dir, r6);
    assert (dir + r6)[..|dir|] == dir && (dir + r6)[|dir| + 1..] == tail;
  }

  /** Conversely, every line the pattern accepts is a well-formed campaign
      line around the directory it yields. */
  lemma CampaignDirShape(l: string)
    requires CampaignDir(l).Some?
    ensures exists indent, gap1, number, gap2, tail ::
      AllSpace(indent) && AllSpace(gap1) && AllSpace(gap2) && AllSpace(tail) &&
      gap1 != [] && gap2 != [] && number != [] && AllDigits(number) &&
      l == CampaignLine(indent, gap1, number, gap2, CampaignDir(l).value, tail)
  {
    var dir := CampaignDir(l).value;
    var indent, t := SpaceRunSplit(l);
    var r := t[|Keyword|..];
    assert dir == NumberedDir(r).value;
    var gap1, number, gap2, tail := NumberedDirShape(r);
    AssembleLine(l, indent, t, r, gap1, number, gap2, dir, tail);
  }

  lemma AssembleLine(l: string, indent: string, t: string, r: string, gap1: string, number: string, gap2: string, dir: string, tail: string)
    requires l == indent + t && StartsWith(t, Keyword) && r == t[|Keyword|..]
    requires r == gap1 + (number + (gap2 + ("\"" + (dir + ("\"" + tail)))))
    ensures l == CampaignLine(indent, gap1, number, gap2, dir, tail)
  {
    assert t == Keyword + r;
  }

  lemma NumberedDirShape(r: string) returns (gap1: string, number: string, gap2: string, tail: string)
    requires NumberedDir(r).Some?
    ensures AllSpace(gap1) && AllSpace(gap2) && AllSpace(tail)
    ensures gap1 != [] && gap2 != [] && number != [] && AllDigits(number)
    ensures r == gap1 + (number + (gap2 + ("\"" + (NumberedDir(r).value + ("\"" + tail)))))
  {
    var dir := NumberedDir(r).value;
    var r2, r3, r4;
    gap1, r2 := SpaceRunSplit(r);
    number, r3 := DigitRunSplit(r2);
    gap2, r4 := SpaceRunSplit(r3);
    assert dir == QuotedDir(r4[1..]).value;
    tail := QuotedDirShape(r4[1..]);
    Assemble(r, gap1, r2, number, r3, gap2, r4, dir, tail);
  }

  /** A string cut after its leading whitespace. */
  lemma SpaceRunSplit(s: string) returns (w: string, rest: string)
    ensures w == s[..SpaceRun(s, 0)] && rest == s[SpaceRun(s, 0)..]
    ensures AllSpace(w) && s == w + rest
  {
    SpaceRunAll(s, 0);
    w, rest := s[..SpaceRun(s, 0)], s[SpaceRun(s, 0)..];
  }

  /** A string cut after its leading digits. */
  lemma DigitRunSplit(s: string) returns (w: string, rest: string)
    ensures w == s[..DigitRun(s, 0)] && rest == s[DigitRun(s, 0)..]
    ensures AllDigits(w) && s == w + rest
  {
    DigitRunDigits(s, 0);
    w, rest := s[..DigitRun(s, 0)], s[DigitRun(s, 0)..];
  }

  lemma Assemble(r: string, gap1: string, r2: string, number: string, r3: string, gap2: string, r4: string, dir: string, tail: string)
    requires r == gap1 + r2 && r2 == number + r3 && r3 == gap2 + r4
    requires r4 != [] && r4[0] == '"' && r4[1..] == dir + ("\"" + tail)
    ensures r == gap1 + (number + (gap2 + ("\"" + (dir + ("\"" + tail)))))
  {
    assert r4 == "\"" + r4[1..];
  }

  lemma QuotedDirShape(r: string) returns (tail: string)
    requires QuotedDir(r).Some?
    ensures AllSpace(tail) && r == QuotedDir(r).value + ("\"" + tail)
  {
    var e := IndexFrom(r, 0, '"');
    tail := r[e + 1..];
    assert r == r[..e] + ("\"" + tail);
  }

  /** The index of the first line that names a campaign, or the number of
      lines when none does. */
  function FirstCampaign(lines: seq<string>): (k: nat)
    ensures k <= |lines|
    ensures k < |lines| ==> CampaignDir(lines[k]).Some?
    decreases |lines|
  {
    if lines == [] then 0
    else if CampaignDir(lines[0]).Some? then 0
    else
      var k := FirstCampaign(lines[1..]);
      assert k < |lines| - 1 ==> lines[1 + k] == lines[1..][k];
      1 + k
  }

  /** No line before the first campaign line names a campaign. */
  lemma {:induction false} FirstCampaignBefore(lines: seq<string>)
    ensures forall j :: 0 <= j < FirstCampaign(lines) ==> CampaignDir(lines[j]).None?
    decreases |lines|
  {
    if lines != [] && CampaignDir(lines[0]).None? {
      FirstCampaignBefore(lines[1..]);
      forall j | 0 < j < FirstCampaign(lines)
        ensures CampaignDir(lines[j]).None?
      {
        assert lines[j] == lines[1..][j - 1];
      }
    }
  }

  /** What `campaignfile(*names)` returns: '' when the menu file cannot be
      opened, when no line names a campaign, or when the expanded directory
      is empty; otherwise the names joined under that directory. */
  function Campaign(env: Env, fs: FileSystem, names: seq<string>): string {
    var menu := UserFile(env, ["PAN", "MENU.INP"]);
    if menu == [] || menu !in fs then []
    else
      var lines := fs[menu];
      var k := FirstCampaign(lines);
      if k == |lines| then []
      else
        var campdir := ExpandPath(env, CampaignDir(lines[k]).value);
        if campdir == [] then [] else PathJoin(campdir, names)
  }

  /** `campaignfile(*names)`: reads the menu file line by line and stops at
      the first campaign line. Opening '' or a missing file raises, which the
      function swallows. */
  method CampaignFile(env: Env, fs: FileSystem, names: seq<string>) returns (path: string)
    ensures path == Campaign(env, fs, names)
  {
    var menu := UserFile(env, ["PAN", "MENU.INP"]);
    if menu == [] || menu !in fs {
      return [];
    }
    var lines := fs[menu];
    var i := FindCampaign(lines);
    if i == |lines| {
      return [];
    }
    var campdir := ExpandPath(env, CampaignDir(lines[i]).value);
    if campdir != [] {
      return PathJoin(campdir, names);
    }
    return [];
  }

  /** The `for l in f` loop of `campaignfile`, which breaks at the first
      line that names a campaign. */
  method FindCampaign(lines: seq<string>) returns (i: nat)
    ensures i == FirstCampaign(lines)
  {
    i := 0;
    while i < |lines|
      invariant i <= |lines|
      invariant i <= FirstCampaign(lines)
    {
      var m := CampaignDir(lines[i]);
      if m.Some? {
        FirstCampaignAt(lines, i);
        break;
      }
      assert i + 1 <= FirstCampaign(lines) by { FirstCampaignPast(lines, i); }
      i := i + 1;
    }
  }

  lemma FirstCampaignPast(lines: seq<string>, i: nat)
    requires i < |lines| && CampaignDir(lines[i]).None? && i <= FirstCampaign(lines)
    ensures i + 1 <= FirstCampaign(lines)
  {
  }

  lemma FirstCampaignAt(lines: seq<string>, i: nat)
    requires i < |lines| && CampaignDir(lines[i]).Some? && i <= FirstCampaign(lines)
    ensures FirstCampaign(lines) == i
  {
    FirstCampaignBefore(lines);
  }

  /** The first campaign line is the one before which no line matches. */
  lemma FirstCampaignIs(lines: seq<string>, i: nat)
    requires i <= |lines| && (i < |lines| ==> CampaignDir(lines[i]).Some?)
    requires forall j :: 0 <= j < i ==> CampaignDir(lines[j]).None?
    ensures FirstCampaign(lines) == i
  {
    FirstCampaignBefore(lines);
  }

  /** Only the first campaign line counts: what follows it is never read. */
  lemma CampaignFirstWins(env: Env, fs: FileSystem, names: seq<string>, before: seq<string>, l: string, after: seq<string>)
    requires env.u != []
    requires UserFile(env, ["PAN", "MENU.INP"]) in fs
    requires fs[UserFile(env, ["PAN", "MENU.INP"])] == before + [l] + after
    requires forall j :: 0 <= j < |before| ==> CampaignDir(before[j]).None?
    requires CampaignDir(l).Some?
    ensures Campaign(env, fs, names)
         == var dir := ExpandPath(env, CampaignDir(l).value); if dir == [] then [] else PathJoin(dir, names)
  {
    var lines := before + [l] + after;
    assert lines[|before|] == l;
    FirstCampaignIs(lines, |before|);
  }
}
