/**
 * The path helpers of pyfreefem/utils.py: `convert_to_wsl_path`,
 * `convert_to_windows_path` and `normalize_path` with its target given.
 */
module Paths {
  import opened Text

  // ---------------------------------------------------------------------
  // String operations the helpers use

  predicate StartsWith(s: string, prefix: string) { |prefix| <= |s| && s[..|prefix|] == prefix }

  /** `s.replace(a, b)` for one-character `a` and `b`. */
  function Replace(s: string, a: char, b: char): (r: string)
    ensures |r| == |s|
  {
    if s == [] then [] else [if s[0] == a then b else s[0]] + Replace(s[1..], a, b)
  }

  /** Each character of `s.replace(a, b)`. */
  lemma {:induction false} ReplaceAt(s: string, a: char, b: char, i: nat)
    requires i < |s|
    ensures Replace(s, a, b)[i] == if s[i] == a then b else s[i]
  {
    if i > 0 {
      ReplaceAt(s[1..], a, b, i - 1);
    }
  }

  /** `s.split(c)`: the pieces between the `c`s, at least one, none containing `c`. */
  function Split(s: string, c: char): (parts: seq<string>)
    ensures |parts| >= 1
    decreases |s|
  {
    var k := IndexOf(s, c);
    if k == |s| then [s] else [s[..k]] + Split(s[k + 1..], c)
  }

  /** No piece of `s.split(c)` holds a `c`. */
  lemma {:induction false} SplitFree(s: string, c: char)
    ensures forall i :: 0 <= i < |Split(s, c)| ==> c !in Split(s, c)[i]
    decreases |s|
  {
    var k := IndexOf(s, c);
    IndexOfFacts(s, c);
    if k < |s| {
      SplitFree(s[k + 1..], c);
      assert c !in s[..k];
    }
  }

  /** `d.join(parts)`. */
  function Join(parts: seq<string>, d: char): string
  {
    if parts == [] then [] else if |parts| == 1 then parts[0] else parts[0] + ([d] + Join(parts[1..], d))
  }

  lemma {:induction false} ReplaceConcat(a: string, b: string, c: char, d: char)
    ensures Replace(a + b, c, d) == Replace(a, c, d) + Replace(b, c, d)
  {
    if a == [] {
      assert a + b == b;
    } else {
      assert (a + b)[1..] == a[1..] + b;
      ReplaceConcat(a[1..], b, c, d);
    }
  }

  /** Replacing a character the string does not hold changes nothing. */
  lemma {:induction false} ReplaceAbsent(s: string, c: char, d: char)
    requires c !in s
    ensures Replace(s, c, d) == s
  {
    if s != [] {
      assert c !in s[1..];
      ReplaceAbsent(s[1..], c, d);
    }
  }

  /** Replacing `a` by `b` and then `b` by `a` gives the string back when it held no `b`. */
  lemma {:induction false} ReplaceBack(s: string, a: char, b: char)
    requires b !in s
    ensures Replace(Replace(s, a, b), b, a) == s
  {
    if s != [] {
      assert b !in s[1..];
      ReplaceBack(s[1..], a, b);
      var r := Replace(s, a, b);
      assert r[1..] == Replace(s[1..], a, b);
    }
  }

  /** Splitting at `c` and joining with `d` replaces every `c` by `d`. */
  lemma {:induction false} JoinSplit(s: string, c: char, d: char)
    ensures Join(Split(s, c), d) == Replace(s, c, d)
    decreases |s|
  {
    var k := IndexOf(s, c);
    IndexOfFacts(s, c);
    if k < |s| {
      var a, b := s[..k], s[k + 1..];
      JoinSplit(b, c, d);
      assert s == a + ([c] + b);
      ReplaceConcat(a, [c] + b, c, d);
      ReplaceConcat([c], b, c, d);
      assert c !in a;
      ReplaceAbsent(a, c, d);
      var parts := Split(s, c);
      var rb := Replace(b, c, d);
      var jb := Join(Split(b, c), d);
      assert jb == rb;
      assert parts == [a] + Split(b, c);
      assert parts[1..] == Split(b, c);
      assert Join(parts, d) == a + ([d] + jb);
      assert Replace([c], c, d) == [d];
      assert Replace([c] + b, c, d) == [d] + rb;
      assert Replace(s, c, d) == a + ([d] + rb);
    } else {
      ReplaceAbsent(s, c, d);
    }
  }

  /** A piece free of `c` followed by `c` is split off whole. */
  lemma SplitAfter(a: string, b: string, c: char)
    requires c !in a
    ensures Split(a + [c] + b, c) == [a] + Split(b, c)
  {
    var s := a + [c] + b;
    assert s[|a|] == c;
    assert s[..|a|] == a && s[|a| + 1..] == b;
    SplitAt(s, c, |a|);
  }

  predicate HasNoLowercase(s: string) { forall i :: 0 <= i < |s| ==> !('a' <= s[i] <= 'z') }

  predicate HasNoUppercase(s: string) { forall i :: 0 <= i < |s| ==> !('A' <= s[i] <= 'Z') }

  // ---------------------------------------------------------------------
  // The helpers

  /**
   * `convert_to_wsl_path`: a path with a ':' becomes "/mnt/" + the lowered text before
   * the first ':' + the text after it with '\\' turned into '/'; any other path is
   * returned unchanged.
   */
  function ToWsl(p: string): (r: string)
    ensures ':' !in p ==> r == p
    ensures ':' in p ==> |r| == |p| + 4 && StartsWith(r, "/mnt/")
  {
    if ':' in p then
      var k := IndexOf(p, ':');
      IndexOfFacts(p, ':');
      "/mnt/" + Lower(p[..k]) + Replace(p[k + 1..], '\\', '/')
    else p
  }

  /** `is_wsl_path`: starts with "/mnt/" and has more than three '/'-separated parts. */
  predicate IsWslPath(p: string) { StartsWith(p, "/mnt/") && |Split(p, '/')| > 3 }

  /** `is_windows_path`: holds a ':' and a '\\'. */
  predicate IsWindowsPath(p: string) { ':' in p && '\\' in p }

  /**
   * `convert_to_windows_path`: a "/mnt/d/..." path becomes the uppercased drive part,
   * ":\\" and the remaining parts joined with '\\'; any other path is returned unchanged.
   */
  function ToWindows(p: string): (r: string)
    ensures !IsWslPath(p) ==> r == p
    ensures IsWslPath(p) ==> '/' !in r
  {
    if StartsWith(p, "/mnt/") then
      var parts := Split(p, '/');
      if |parts| > 3 then
        var rest := Join(parts[3..], '\\');
        SplitFree(p, '/');
        JoinSplitFree(parts[3..], '\\', '/');
        Upper(parts[2]) + ":\\" + rest
      else p
    else p
  }

  /** Joining pieces free of `c` with a separator other than `c` gives a string free of `c`. */
  lemma {:induction false} JoinSplitFree(parts: seq<string>, d: char, c: char)
    requires c != d && forall i :: 0 <= i < |parts| ==> c !in parts[i]
    ensures c !in Join(parts, d)
  {
    if |parts| > 1 {
      JoinSplitFree(parts[1..], d, c);
    }
  }

  /**
   * `normalize_path(path, target_os)` with the target given: "windows"/"win" in any
   * case converts WSL-shaped paths, "linux"/"wsl" converts Windows-shaped paths, and
   * any other target leaves the path alone.
   */
  function Normalize(p: string, target: string): string
  {
    var t := Lower(target);
    if t == "windows" || t == "win" then (if IsWslPath(p) then ToWindows(p) else p)
    else if t == "linux" || t == "wsl" then (if IsWindowsPath(p) then ToWsl(p) else p)
    else p
  }

  // ---------------------------------------------------------------------
  // Properties

  /**
   * With a Windows target `normalize_path` is `convert_to_windows_path`; with a Linux or WSL
   * target it is `convert_to_wsl_path` on paths that hold a '\\' and the identity on the
   * others; any other target changes nothing.
   */
  lemma NormalizeTargets(p: string, target: string)
    ensures Lower(target) in {"windows", "win"} ==> Normalize(p, target) == ToWindows(p)
    ensures Lower(target) in {"linux", "wsl"} ==> Normalize(p, target) == if '\\' in p then ToWsl(p) else p
    ensures Lower(target) !in {"windows", "win", "linux", "wsl"} ==> Normalize(p, target) == p
  {
  }

  /** `convert_to_wsl_path` leaves a backslash only where the drive part held one. */
  lemma WslBackslashes(p: string)
    requires ':' in p
    ensures '\\' in ToWsl(p) <==> '\\' in p[..IndexOf(p, ':')]
  {
    var k := IndexOf(p, ':');
    IndexOfFacts(p, ':');
    var drive, rest := p[..k], p[k + 1..];
    var a, b, c := "/mnt/", Lower(drive), Replace(rest, '\\', '/');
    assert ToWsl(p) == a + b + c;
    assert '\\' !in a;
    LowerKeepsBackslash(drive);
    ReplaceRemoves(rest, '\\', '/');
    InConcat('\\', a, b, c);
  }

  /** A character occurs in `a + b + c` exactly when it occurs in one of the parts. */
  lemma InConcat(x: char, a: string, b: string, c: string)
    ensures x in a + b + c <==> x in a || x in b || x in c
  {
    var s := a + b + c;
    if x in s {
      var j :| 0 <= j < |s| && s[j] == x;
      if j < |a| { assert a[j] == x; }
      else if j < |a| + |b| { assert b[j - |a|] == x; }
      else { assert c[j - |a| - |b|] == x; }
    }
    if x in a {
      var j :| 0 <= j < |a| && a[j] == x;
      assert s[j] == x;
    }
    if x in b {
      var j :| 0 <= j < |b| && b[j] == x;
      assert s[|a| + j] == x;
    }
    if x in c {
      var j :| 0 <= j < |c| && c[j] == x;
      assert s[|a| + |b| + j] == x;
    }
  }

  /** Lowering the case neither creates nor removes a backslash. */
  lemma LowerKeepsBackslash(s: string)
    ensures '\\' in Lower(s) <==> '\\' in s
  {
    var r := Lower(s);
    if '\\' in r {
      var j :| 0 <= j < |r| && r[j] == '\\';
      assert s[j] == '\\';
    }
    if '\\' in s {
      var j :| 0 <= j < |s| && s[j] == '\\';
      assert r[j] == '\\';
    }
  }

  /** After `s.replace(a, b)` with `a != b` no `a` is left. */
  lemma ReplaceRemoves(s: string, a: char, b: char)
    requires a != b
    ensures a !in Replace(s, a, b)
  {
    var r := Replace(s, a, b);
    forall j | 0 <= j < |r| ensures r[j] != a {
      ReplaceAt(s, a, b, j);
    }
  }

  /** Splitting at the first `c`, found at `k`. */
  lemma SplitAt(s: string, c: char, k: nat)
    requires k < |s| && s[k] == c && c !in s[..k]
    ensures Split(s, c) == [s[..k]] + Split(s[k + 1..], c)
  {
    IndexOfAt(s, c, k);
  }

  /** The first `c` is at `k` when `s[k]` is one and none comes before. */
  lemma IndexOfAt(s: string, c: char, k: nat)
    requires k < |s| && s[k] == c && c !in s[..k]
    ensures IndexOf(s, c) == k
  {
    forall i | 0 <= i < k ensures s[i] != c {
      assert s[..k][i] == s[i];
    }
    IndexOfFacts(s, c);
  }

  /** Upper-casing undoes lower-casing on a string without lowercase ASCII letters. */
  lemma UpperLower(s: string)
    requires HasNoLowercase(s)
    ensures Upper(Lower(s)) == s
  {
    var u := Upper(Lower(s));
    assert |u| == |s|;
    forall i | 0 <= i < |s| ensures u[i] == s[i] {
      assert Lower(s)[i] == AsciiLowerChar(s[i]);
    }
  }

  /** Lower-casing undoes upper-casing on a string without uppercase ASCII letters. */
  lemma LowerUpper(s: string)
    requires HasNoUppercase(s)
    ensures Lower(Upper(s)) == s
  {
    var l := Lower(Upper(s));
    assert |l| == |s|;
    forall i | 0 <= i < |s| ensures l[i] == s[i] {
      assert Upper(s)[i] == AsciiUpperChar(s[i]);
    }
  }

  /** The parts of "/mnt/" + `d` + "/" + `rest` when `d` holds no '/'. */
  lemma SplitMounted(w: string, d: string, rest: string)
    requires '/' !in d && w == "/mnt/" + d + "/" + rest
    ensures |Split(w, '/')| > 3 && Split(w, '/')[2] == d && Split(w, '/')[3..] == Split(rest, '/')
  {
    SplitMountedParts(w, d, rest);
  }

  lemma SplitMountedParts(w: string, d: string, rest: string)
    requires '/' !in d && w == "/mnt/" + d + "/" + rest
    ensures Split(w, '/') == ["", "mnt", d] + Split(rest, '/')
  {
    var w2 := d + ['/'] + rest;
    assert w == "/mnt/" + w2;
    SplitAfter(d, rest, '/');
    SplitMnt(w2);
  }

  /** "/mnt/" + `x` splits into "", "mnt" and the parts of `x`. */
  lemma SplitMnt(x: string)
    ensures Split("/mnt/" + x, '/') == ["", "mnt"] + Split(x, '/')
  {
    var x1 := "mnt" + ['/'] + x;
    assert "/mnt/" + x == [] + ['/'] + x1;
    SplitAfter([], x1, '/');
    SplitAfter("mnt", x, '/');
  }

  lemma MountPrefix(w: string, tail: string)
    requires w == "/mnt/" + tail
    ensures StartsWith(w, "/mnt/")
  {
    assert w[..5] == "/mnt/";
  }

  /** `convert_to_wsl_path` on `drive` + ":\\" + `tail`. */
  lemma ToWslShape(drive: string, tail: string)
    requires ':' !in drive
    ensures ToWsl(drive + ":\\" + tail) == "/mnt/" + Lower(drive) + "/" + Replace(tail, '\\', '/')
  {
    var p := drive + ":\\" + tail;
    var k := |drive|;
    assert p[k] == ':' && p[..k] == drive;
    IndexOfAt(p, ':', k);
    var rest := p[k + 1..];
    assert rest == ['\\'] + tail;
    ReplaceConcat(['\\'], tail, '\\', '/');
    var rt := Replace(tail, '\\', '/');
    assert Replace(rest, '\\', '/') == ['/'] + rt;
    var ld := Lower(drive);
    assert ToWsl(p) == "/mnt/" + ld + (['/'] + rt);
  }

  /** `convert_to_windows_path` on "/mnt/" + `d` + "/" + `rest`. */
  lemma ToWindowsShape(d: string, rest: string)
    requires '/' !in d
    ensures ToWindows("/mnt/" + d + "/" + rest) == Upper(d) + ":\\" + Replace(rest, '/', '\\')
  {
    var w := "/mnt/" + d + "/" + rest;
    SplitMounted(w, d, rest);
    MountPrefix(w, d + "/" + rest);
    JoinSplit(rest, '/', '\\');
  }

  /**
   * A Windows path `drive` + ":\\" + `tail` round-trips through WSL form when the drive
   * holds no lowercase ASCII letter and neither part holds a ':' in the drive or a '/'.
   */
  lemma WindowsRoundTrip(drive: string, tail: string)
    requires ':' !in drive && '/' !in drive && '/' !in tail && HasNoLowercase(drive)
    ensures ToWindows(ToWsl(drive + ":\\" + tail)) == drive + ":\\" + tail
  {
    ToWslShape(drive, tail);
    var ld := Lower(drive);
    assert '/' !in ld by {
      forall i | 0 <= i < |ld| ensures ld[i] != '/' {
        assert ld[i] == AsciiLowerChar(drive[i]);
      }
    }
    var rt := Replace(tail, '\\', '/');
    ToWindowsShape(ld, rt);
    ReplaceBack(tail, '\\', '/');
    UpperLower(drive);
  }

  /**
   * A WSL path "/mnt/" + `d` + "/" + `rest` round-trips through Windows form when the drive
   * part holds no ':', '\\', '/' or uppercase ASCII letter and the rest holds no '\\'.
   */
  lemma WslRoundTrip(d: string, rest: string)
    requires ':' !in d && '\\' !in d && '/' !in d && HasNoUppercase(d) && '\\' !in rest
    ensures ToWsl(ToWindows("/mnt/" + d + "/" + rest)) == "/mnt/" + d + "/" + rest
  {
    ToWindowsShape(d, rest);
    var ud := Upper(d);
    assert ':' !in ud by {
      forall i | 0 <= i < |ud| ensures ud[i] != ':' {
        assert ud[i] == AsciiUpperChar(d[i]);
      }
    }
    var back := Replace(rest, '/', '\\');
    ToWslShape(ud, back);
    ReplaceBack(rest, '/', '\\');
    LowerUpper(d);
  }
}
