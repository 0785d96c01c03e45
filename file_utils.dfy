/** Path sanitising and the temporary-file age rule. POSIX `path.normalize`
    and `path.resolve` are modelled as the segment stack Node uses; the file
    system is an input. */
module FileUtils {
  import opened Wrappers
  import opened Text

  // ------------------------------------------------------ path arithmetic

  /** One segment of Node's `normalizeString`: empty and "." segments
      vanish, ".." pops a real segment, or is kept when nothing can be popped
      and the path is relative (`aboveRoot`). */
  function PushSegment(stack: seq<string>, seg: string, aboveRoot: bool): seq<string>
  {
    if seg == [] || seg == "." then stack
    else if seg == ".." then
      if |stack| > 0 && stack[|stack| - 1] != ".." then stack[..|stack| - 1]
      else if aboveRoot then stack + [".."]
      else stack
    else stack + [seg]
  }

  /** A collapsed segment list: no empty or "." segment, and ".." only in a
      leading run, and only for a relative path. */
  predicate Collapsed(stack: seq<string>, aboveRoot: bool)
  {
    && (forall i :: 0 <= i < |stack| ==> stack[i] != [] && stack[i] != ".")
    && (forall i :: 0 <= i < |stack| && stack[i] == ".." ==> aboveRoot)
    && (forall i, j :: 0 <= i < j < |stack| && stack[j] == ".." ==> stack[i] == "..")
  }

  /** The segments left after processing `segs` from left to right. */
  function Collapse(segs: seq<string>, aboveRoot: bool): (r: seq<string>)
    ensures Collapsed(r, aboveRoot)
  {
    if segs == [] then []
    else PushSegment(Collapse(segs[..|segs| - 1], aboveRoot), segs[|segs| - 1], aboveRoot)
  }

  /** POSIX `path.normalize`: an absolute path stays absolute, a relative
      one relative, and a closing separator is kept; the root "/" is the
      only result that ends in a separator the input did not end in. */
  function Normalize(p: string): (r: string)
    ensures r != []
    ensures r[0] == '/' <==> p != [] && p[0] == '/'
    ensures r != "/" ==> (r[|r| - 1] == '/' <==> p != [] && p[|p| - 1] == '/')
    ensures p != [] && p[|p| - 1] == '/' ==> r[|r| - 1] == '/'
  {
    if p == [] then "."
    else
      var absolute := p[0] == '/';
      var trailing := p[|p| - 1] == '/';
      var segs := Collapse(Split(p, '/'), !absolute);
      var body := Join(segs, '/');
      if body == [] then (if absolute then "/" else if trailing then "./" else ".")
      else
        SplitPiecesFree(p, '/');
        CollapseFree(Split(p, '/'), !absolute);
        FramedEnds(segs, absolute, trailing);
        Framed(segs, absolute, trailing)
  }

  /** A joined segment list between an optional leading and an optional
      closing separator. */
  function Framed(segs: seq<string>, absolute: bool, trailing: bool): string
  {
    (if absolute then "/" else "") + Join(segs, '/') + (if trailing then "/" else "")
  }

  /** A framed list of non-empty, separator-free segments starts with '/'
      exactly when it is absolute and ends with '/' exactly when it is
      trailing. */
  lemma FramedEnds(segs: seq<string>, absolute: bool, trailing: bool)
    requires segs != [] && Collapsed(segs, !absolute)
    requires forall i :: 0 <= i < |segs| ==> '/' !in segs[i]
    ensures var r := Framed(segs, absolute, trailing);
      r != [] && (r[0] == '/' <==> absolute) && (r[|r| - 1] == '/' <==> trailing)
  {
    var j := Join(segs, '/');
    JoinEnds(segs, '/');
    var first := segs[0];
    var last := segs[|segs| - 1];
    assert first[0] in first;
    assert last[|last| - 1] in last;
    var r := Framed(segs, absolute, trailing);
    assert r == (if absolute then "/" else "") + j + (if trailing then "/" else "");
    if !absolute { assert r[0] == j[0]; }
    if !trailing { assert r[|r| - 1] == j[|j| - 1]; }
  }

  /** Collapsing keeps segments free of the separator. */
  lemma {:induction false} CollapseFree(segs: seq<string>, aboveRoot: bool)
    requires forall i :: 0 <= i < |segs| ==> '/' !in segs[i]
    ensures forall i :: 0 <= i < |Collapse(segs, aboveRoot)| ==> '/' !in Collapse(segs, aboveRoot)[i]
    decreases |segs|
  {
    if segs != [] {
      var init := segs[..|segs| - 1];
      CollapseFree(init, aboveRoot);
      assert '/' !in "..";
    }
  }

  /** A leading empty segment (the one before an initial '/') vanishes. */
  lemma {:induction false} CollapseLeadingEmpty(segs: seq<string>, aboveRoot: bool)
    ensures Collapse([[]] + segs, aboveRoot) == Collapse(segs, aboveRoot)
    decreases |segs|
  {
    if segs == [] {
      assert ([[]] + segs)[..0] == [];
    } else {
      var init := segs[..|segs| - 1];
      CollapseLeadingEmpty(init, aboveRoot);
      assert ([[]] + segs)[..|segs|] == [[]] + init;
    }
  }

  /** A closing empty segment (the one after a final '/') vanishes. */
  lemma CollapseTrailingEmpty(segs: seq<string>, aboveRoot: bool)
    ensures Collapse(segs + [[]], aboveRoot) == Collapse(segs, aboveRoot)
  {
    assert (segs + [[]])[..|segs|] == segs;
  }

  /** A collapsed list is its own collapse. */
  lemma {:induction false} CollapseCollapsed(c: seq<string>, aboveRoot: bool)
    requires Collapsed(c, aboveRoot)
    ensures Collapse(c, aboveRoot) == c
    decreases |c|
  {
    if c != [] {
      var init := c[..|c| - 1];
      var x := c[|c| - 1];
      assert c == init + [x];
      PushKeeps(init, x, aboveRoot);
      CollapseCollapsed(init, aboveRoot);
    }
  }

  /** Pushing the last segment of a collapsed list onto the rest keeps it. */
  lemma PushKeeps(init: seq<string>, x: string, aboveRoot: bool)
    requires Collapsed(init + [x], aboveRoot)
    ensures Collapsed(init, aboveRoot) && PushSegment(init, x, aboveRoot) == init + [x]
  {
    var c := init + [x];
    assert forall i :: 0 <= i < |init| ==> init[i] == c[i];
    assert x == c[|init|];
    if x == ".." && init != [] {
      assert init[|init| - 1] == "..";
    }
  }

  /** A closing '/' adds one empty last segment. */
  lemma SplitClosed(x: string)
    ensures Split(x + "/", '/') == Split(x, '/') + [[]]
  {
    assert x + "/" == x + ['/'] + [];
    SplitAppend(x, '/', []);
  }

  /** A leading '/' adds one empty first segment. */
  lemma SplitOpened(x: string)
    ensures Split("/" + x, '/') == [[]] + Split(x, '/')
  {
    assert "/" + x == [] + ['/'] + x;
    SplitFirst([], '/', x);
  }

  lemma FramedAbsolute(segs: seq<string>, trailing: bool)
    ensures Framed(segs, true, trailing) == "/" + Framed(segs, false, trailing)
  {
  }

  /** Without its leading separator, a framed list collapses back to the
      list. */
  lemma InnerSegments(segs: seq<string>, aboveRoot: bool, trailing: bool)
    requires segs != [] && Collapsed(segs, aboveRoot)
    requires forall i :: 0 <= i < |segs| ==> '/' !in segs[i]
    ensures Collapse(Split(Framed(segs, false, trailing), '/'), aboveRoot) == segs
  {
    var j := Join(segs, '/');
    assert Split(j, '/') == segs by {
      SplitJoin(segs, '/');
    }
    assert Collapse(segs, aboveRoot) == segs by {
      CollapseCollapsed(segs, aboveRoot);
    }
    if trailing {
      assert Framed(segs, false, trailing) == j + "/";
      assert Split(j + "/", '/') == segs + [[]] by {
        SplitClosed(j);
      }
      CollapseTrailingEmpty(segs, aboveRoot);
    } else {
      assert Framed(segs, false, trailing) == j;
    }
  }

  /** The segments of a framed collapsed list collapse back to the list. */
  lemma FramedSegments(segs: seq<string>, absolute: bool, trailing: bool)
    requires segs != [] && Collapsed(segs, !absolute)
    requires forall i :: 0 <= i < |segs| ==> '/' !in segs[i]
    ensures Collapse(Split(Framed(segs, absolute, trailing), '/'), !absolute) == segs
  {
    InnerSegments(segs, !absolute, trailing);
    if absolute {
      var inner := Framed(segs, false, trailing);
      FramedAbsolute(segs, trailing);
      assert Split("/" + inner, '/') == [[]] + Split(inner, '/') by {
        SplitOpened(inner);
      }
      CollapseLeadingEmpty(Split(inner, '/'), !absolute);
    }
  }

  /** A path with no segment left normalises to "/", "./" or ".", and each
      of those is its own normal form. */
  lemma NormalizeBare()
    ensures Normalize("/") == "/" && Normalize("./") == "./" && Normalize(".") == "."
  {
    assert "/" == [] + ['/'] + [];
    SplitFirst([], '/', []);
    SplitWithout([], '/');
    assert Collapse([[], []], false) == [];
    assert "./" == "." + ['/'] + [];
    SplitFirst(".", '/', []);
    assert Collapse([".", []], true) == [];
    SplitWithout(".", '/');
    assert Collapse(["."], true) == [];
  }

  /** Normalising a normal form changes nothing. */
  lemma NormalizeIsIdempotent(p: string)
    ensures Normalize(Normalize(p)) == Normalize(p)
  {
    NormalizeBare();
    if p != [] {
      var absolute := p[0] == '/';
      var trailing := p[|p| - 1] == '/';
      var segs := Collapse(Split(p, '/'), !absolute);
      if Join(segs, '/') != [] {
        SplitPiecesFree(p, '/');
        CollapseFree(Split(p, '/'), !absolute);
        var r := Framed(segs, absolute, trailing);
        assert Normalize(p) == r;
        FramedEnds(segs, absolute, trailing);
        FramedSegments(segs, absolute, trailing);
      }
    }
  }

  /** POSIX `path.resolve(p)` against the working directory `cwd`. */
  function Resolve(cwd: string, p: string): (r: string)
    ensures |r| > 0 && r[0] == '/'
  {
    var full := if |p| > 0 && p[0] == '/' then p else cwd + "/" + p;
    "/" + Join(Collapse(Split(full, '/'), false), '/')
  }

  /** A resolved path never goes above the root: it has no "..", "." or
      empty segment. */
  lemma ResolvedIsClean(cwd: string, p: string)
    ensures var full := if |p| > 0 && p[0] == '/' then p else cwd + "/" + p;
      var segs := Collapse(Split(full, '/'), false);
      Resolve(cwd, p) == "/" + Join(segs, '/') && forall i :: 0 <= i < |segs| ==> segs[i] !in {[], ".", ".."}
  {
  }

  // ------------------------------------------------------------ sanitising

  /** `.replace(/^(\.\.[/\\])+/, '')`: drops every leading "../" or "..\". */
  function StripParentPrefix(s: string): (r: string)
    ensures |r| <= |s| && r == s[|s| - |r|..]
    ensures !StartsWith(r, "../") && !StartsWith(r, "..\\")
    decreases |s|
  {
    if StartsWith(s, "../") || StartsWith(s, "..\\") then StripParentPrefix(s[3..]) else s
  }

  lemma StripIsIdempotent(s: string)
    ensures StripParentPrefix(StripParentPrefix(s)) == StripParentPrefix(s)
  {
  }

  const NOT_ALLOWED: string := "Chemin de fichier non autorisé"

  /** The allow-list test: a plain string prefix, with no separator check. */
  predicate Allowed(cwd: string, resolved: string)
  {
    StartsWith(resolved, Resolve(cwd, "uploads")) || StartsWith(resolved, Resolve(cwd, "models"))
  }

  /** `sanitizePath`: the normalized, stripped path when its resolved form
      lies under `<cwd>/uploads` or `<cwd>/models` (by string prefix), and
      the error otherwise. The stripped path, not the resolved one, is
      returned. */
  function SanitizePath(cwd: string, filePath: string): (r: Result<string, string>)
    ensures r.Ok? ==> r.value == StripParentPrefix(Normalize(filePath))
    ensures r.Ok? <==> Allowed(cwd, Resolve(cwd, StripParentPrefix(Normalize(filePath))))
    ensures r.Err? ==> r.error == NOT_ALLOWED
    ensures r.Ok? ==> !StartsWith(r.value, "../") && !StartsWith(r.value, "..\\")
  {
    var normalized := StripParentPrefix(Normalize(filePath));
    if Allowed(cwd, Resolve(cwd, normalized)) then Ok(normalized) else Err(NOT_ALLOWED)
  }

  /** Any resolved path that merely extends the allowed directory's string
      passes. */
  lemma PrefixExtensionPasses(cwd: string, suffix: string)
    ensures Allowed(cwd, Resolve(cwd, "uploads") + suffix)
  {
    var d := Resolve(cwd, "uploads");
    assert (d + suffix)[..|d|] == d;
  }

  /** The resolved working directory with a closing separator. */
  function DirPrefix(cwd: string): string
  {
    var c := Collapse(Split(cwd, '/'), false);
    "/" + (if c == [] then [] else Join(c, '/') + "/")
  }

  /** A plain relative name (no separator, not "." or "..") resolves to the
      working directory followed by that name. */
  lemma ResolveChild(cwd: string, name: string)
    requires '/' !in name && name != [] && name != "." && name != ".."
    ensures Resolve(cwd, name) == DirPrefix(cwd) + name
  {
    var full := cwd + "/" + name;
    assert full == cwd + ['/'] + name;
    SplitAppend(cwd, '/', name);
    var c := Collapse(Split(cwd, '/'), false);
    CollapsePlain(Split(cwd, '/'), name);
    JoinSnoc(c, '/', name);
    if c != [] {
      var j := Join(c, '/');
      Regroup4("/", j, "/", name);
      Regroup("/", j, "/");
    } else {
      assert "/" + [] == "/";
    }
  }

  /** A plain segment pushed after the others is kept as it is. */
  lemma CollapsePlain(xs: seq<string>, name: string)
    requires name != [] && name != "." && name != ".."
    ensures Collapse(xs + [name], false) == Collapse(xs, false) + [name]
  {
    assert (xs + [name])[..|xs|] == xs;
  }

  /** A plain relative name is its own normal form. */
  lemma NormalizePlainName(name: string)
    requires '/' !in name && name != [] && name != "." && name != ".."
    ensures Normalize(name) == name
  {
    SplitWithout(name, '/');
    assert [name][..0] == [];
    assert Collapse([name], true) == [name];
    assert name[0] != '/' by { assert name[0] in name; }
    assert name[|name| - 1] != '/' by { assert name[|name| - 1] in name; }
  }

  /** A plain relative name is returned unchanged when it passes. */
  lemma SanitizePlainName(cwd: string, name: string)
    requires '/' !in name && name != [] && name != "." && name != ".."
    requires !StartsWith(name, "..\\")
    ensures SanitizePath(cwd, name) == if Allowed(cwd, Resolve(cwd, name)) then Ok(name) else Err(NOT_ALLOWED)
  {
    NormalizePlainName(name);
    assert !StartsWith(name, "../") by {
      if |name| >= 3 { assert name[2] in name; }
    }
    assert StripParentPrefix(name) == name;
  }

  lemma UploadsNameIsPlain(suffix: string)
    requires '/' !in suffix
    ensures '/' !in "uploads" + suffix && ("uploads" + suffix)[0] == 'u'
  {
    var name := "uploads" + suffix;
    forall k | 0 <= k < |name| ensures name[k] != '/' {
      if k >= 7 { assert name[k] == suffix[k - 7]; }
    }
  }

  /** Resolving a plain name followed by more characters extends the
      resolved name by exactly those characters. */
  lemma ResolveExtended(cwd: string, dir: string, suffix: string)
    requires '/' !in dir && dir != [] && dir != "." && dir != ".."
    requires '/' !in dir + suffix && dir + suffix != "." && dir + suffix != ".."
    ensures Resolve(cwd, dir + suffix) == Resolve(cwd, dir) + suffix
  {
    var d := DirPrefix(cwd);
    ResolveChild(cwd, dir + suffix);
    ResolveChild(cwd, dir);
    Regroup(d, dir, suffix);
  }

  /** The allow-list has no separator check: a sibling of the uploads
      directory whose name merely begins with "uploads", such as
      "uploads-x", is accepted. */
  lemma SiblingOfUploadsAccepted(cwd: string, suffix: string)
    requires '/' !in suffix
    ensures SanitizePath(cwd, "uploads" + suffix) == Ok("uploads" + suffix)
  {
    var name := "uploads" + suffix;
    UploadsNameIsPlain(suffix);
    assert name != "." && name != "..";
    assert !StartsWith(name, "..\\");
    SanitizePlainName(cwd, name);
    ResolveExtended(cwd, "uploads", suffix);
    PrefixExtensionPasses(cwd, suffix);
  }

  // ---------------------------------------------------------- temp files

  /** 24 hours, in milliseconds. */
  const DEFAULT_MAX_AGE: int := 24 * 60 * 60 * 1000

  datatype FileStat = FileStat(name: string, mtime: int)

  predicate Stale(f: FileStat, now: int, maxAge: int)
  {
    now - f.mtime > maxAge
  }

  /** The names of the stale files, in listing order. */
  function StaleNames(files: seq<FileStat>, now: int, maxAge: int): (r: seq<string>)
    ensures forall i :: 0 <= i < |files| && Stale(files[i], now, maxAge) ==> files[i].name in r
    ensures forall n :: n in r ==> exists i :: 0 <= i < |files| && files[i].name == n && Stale(files[i], now, maxAge)
    ensures |r| <= |files|
  {
    if files == [] then []
    else
      var rest := StaleNames(files[1..], now, maxAge);
      assert forall n :: n in rest ==> exists i :: 1 <= i < |files| && files[i].name == n && Stale(files[i], now, maxAge) by {
        forall n | n in rest ensures exists i :: 1 <= i < |files| && files[i].name == n && Stale(files[i], now, maxAge) {
          var j :| 0 <= j < |files[1..]| && files[1..][j].name == n && Stale(files[1..][j], now, maxAge);
          assert files[j + 1] == files[1..][j];
        }
      }
      if Stale(files[0], now, maxAge) then [files[0].name] + rest else rest
  }

  /** `cleanupTempFiles`: `listing` is `readdir` with `stat` (None when the
      directory cannot be read); the result is the list of unlinked names.
      It never fails: a listing error deletes nothing. */
  method CleanupTempFiles(listing: Option<seq<FileStat>>, now: int, maxAge: int) returns (deleted: seq<string>)
    ensures listing.None? ==> deleted == []
    ensures listing.Some? ==> deleted == StaleNames(listing.value, now, maxAge)
  {
    deleted := [];
    if listing.None? {
      return;
    }
    var files := listing.value;
    var i := |files|;
    while i > 0
      invariant 0 <= i <= |files|
      invariant deleted == StaleNames(files[i..], now, maxAge)
    {
      i := i - 1;
      assert files[i..][1..] == files[i + 1..];
      if now - files[i].mtime > maxAge {
        deleted := [files[i].name] + deleted;
      }
    }
  }

  /** A file exactly `maxAge` old is kept; one millisecond more and it goes. */
  lemma AgeBoundary(name: string, now: int, maxAge: int)
    ensures StaleNames([FileStat(name, now - maxAge)], now, maxAge) == []
    ensures StaleNames([FileStat(name, now - maxAge - 1)], now, maxAge) == [name]
  {
  }
}
