/** The `os.path` operations the scripts use to derive upload and output paths (POSIX separator). */
module Paths {
  import opened PyOps

  /** `os.path.basename`: everything after the last '/'. */
  function Basename(p: string): (b: string)
    ensures Free(b, '/')
    ensures |b| <= |p| && p[|p| - |b|..] == b
    ensures |b| < |p| ==> p[|p| - |b| - 1] == '/'
  {
    if |p| == 0 || p[|p| - 1] == '/' then ""
    else
      var q := p[..|p| - 1];
      var b := Basename(q);
      assert p[|p| - |b| - 1..] == q[|q| - |b|..] + [p[|p| - 1]];
      b + [p[|p| - 1]]
  }

  /** `os.path.join(dir, name)` for two components. */
  function JoinPath(dir: string, name: string): (p: string)
    ensures |name| > 0 && name[0] == '/' ==> p == name
  {
    if |name| > 0 && name[0] == '/' then name
    else if |dir| == 0 || dir[|dir| - 1] == '/' then dir + name
    else dir + "/" + name
  }

  /** Joining a plain directory name and a name without '/' puts exactly one '/' between them. */
  lemma {:induction false} JoinPlain(dir: string, name: string)
    requires |dir| > 0 && dir[|dir| - 1] != '/' && Free(name, '/')
    ensures JoinPath(dir, name) == dir + "/" + name
  {
    assert |name| > 0 ==> name[0] != '/';
  }

  /** The index of the last `ch` in `s`, or -1. */
  function LastIndex(s: string, ch: char): (i: int)
    ensures -1 <= i < |s|
    ensures i >= 0 ==> s[i] == ch
    ensures forall j :: i < j < |s| ==> s[j] != ch
  {
    if |s| == 0 then -1
    else if s[|s| - 1] == ch then |s| - 1
    else LastIndex(s[..|s| - 1], ch)
  }

  predicate HasNonDot(s: string) {
    exists i :: 0 <= i < |s| && s[i] != '.'
  }

  /**
   * `os.path.splitext(name)[0]` for a name without '/': the name cut at its last
   * '.', unless only dots precede that '.' (".bashrc", "..png"), in which case
   * the name has no extension.
   */
  function Stem(name: string): (s: string)
    ensures |s| <= |name| && name[..|s|] == s
    ensures s != name ==> name[|s|] == '.' && Free(name[|s| + 1..], '.') && HasNonDot(s)
    ensures s == name ==> LastIndex(name, '.') < 0 || !HasNonDot(name[..LastIndex(name, '.')])
  {
    var d := LastIndex(name, '.');
    if d >= 0 && HasNonDot(name[..d]) then name[..d] else name
  }

  /** A name appended after a string that has no `ch` keeps its last `ch` where it was, shifted. */
  lemma {:induction false} LastIndexAppend(a: string, b: string, ch: char)
    requires LastIndex(b, ch) >= 0
    ensures LastIndex(a + b, ch) == |a| + LastIndex(b, ch)
  {
    var s := a + b;
    if s[|s| - 1] == ch {
      assert b[|b| - 1] == ch;
    } else {
      assert s[..|s| - 1] == a + b[..|b| - 1];
      LastIndexAppend(a, b[..|b| - 1], ch);
    }
  }

  /** A name without '/' is its own base name. */
  lemma {:induction false} BasenameOfFree(b: string)
    requires Free(b, '/')
    ensures Basename(b) == b
  {
    if |b| > 0 {
      BasenameOfFree(b[..|b| - 1]);
      assert b[..|b| - 1] + [b[|b| - 1]] == b;
    }
  }

  /** The basename of `dir/name` is `name`, for any name without '/'. */
  lemma {:induction false} BasenameUnderDir(dir: string, name: string)
    requires Free(name, '/')
    ensures Basename(dir + "/" + name) == name
  {
    var p := dir + "/" + name;
    if |name| == 0 {
      assert p[|p| - 1] == '/';
    } else {
      assert p[..|p| - 1] == dir + "/" + name[..|name| - 1];
      BasenameUnderDir(dir, name[..|name| - 1]);
      assert name[..|name| - 1] + [name[|name| - 1]] == name;
    }
  }

  /** `os.path.join(dir, name)` has base name `name`, for any directory and any name without '/'. */
  lemma {:induction false} BasenameOfJoin(dir: string, name: string)
    requires Free(name, '/')
    ensures Basename(JoinPath(dir, name)) == name
  {
    if |dir| == 0 {
      assert JoinPath(dir, name) == name by { assert |name| > 0 ==> name[0] != '/'; }
      BasenameOfFree(name);
    } else if dir[|dir| - 1] == '/' {
      assert JoinPath(dir, name) == dir + name by { assert |name| > 0 ==> name[0] != '/'; }
      assert dir == dir[..|dir| - 1] + "/";
      assert dir + name == dir[..|dir| - 1] + "/" + name;
      BasenameUnderDir(dir[..|dir| - 1], name);
    } else {
      JoinPlain(dir, name);
      BasenameUnderDir(dir, name);
    }
  }
}

/** The output-file naming the two scripts share. */
module OutputNaming {
  import opened PyOps
  import opened Paths

  const Suffix := "_with_logo"

  /** The output file name: the cap's name without its extension, then `_with_logo.png`. */
  function OutputName(capPath: string): (name: string)
    ensures Free(name, '/')
    ensures |Suffix + ".png"| <= |name| && name[|name| - |Suffix + ".png"|..] == Suffix + ".png"
    ensures name[..|name| - |Suffix + ".png"|] == Stem(Basename(capPath))
  {
    var base := Basename(capPath);
    var stem := Stem(base);
    var tail := Suffix + ".png";
    PrefixFree(base, |stem|, '/');
    OutputNameFree(stem);
    assert stem + Suffix + ".png" == stem + tail;
    assert (stem + tail)[|stem|..] == tail && (stem + tail)[..|stem|] == stem;
    stem + tail
  }

  /**
   * `os.path.join(dir, os.path.splitext(os.path.basename(capPath))[0] + "_with_logo.png")`:
   * whatever the directory, the file written is named by `OutputName`.
   */
  function WithLogoPath(dir: string, capPath: string): (p: string)
    ensures Basename(p) == OutputName(capPath)
  {
    BasenameOfJoin(dir, OutputName(capPath));
    JoinPath(dir, OutputName(capPath))
  }

  /** A prefix of a name without '/' has none either. */
  lemma {:induction false} PrefixFree(s: string, k: nat, ch: char)
    requires Free(s, ch) && k <= |s|
    ensures Free(s[..k], ch)
  {
    forall i | 0 <= i < k ensures s[..k][i] != ch {
      assert s[..k][i] == s[i];
    }
  }

  /** The output file name contains no '/'. */
  lemma {:induction false} OutputNameFree(stem: string)
    requires Free(stem, '/')
    ensures Free(stem + Suffix + ".png", '/')
  {
    var name := stem + Suffix + ".png";
    forall i | 0 <= i < |name| ensures name[i] != '/' {
      if i >= |stem| {
        assert name[i] == (Suffix + ".png")[i - |stem|];
      }
    }
  }

  /** Splitting the extension off `<stem>_with_logo.png` leaves `<stem>_with_logo`, whatever dots the stem holds. */
  lemma {:induction false} StemOfOutputName(stem: string)
    ensures Stem(stem + Suffix + ".png") == stem + Suffix
  {
    var head, ext := stem + Suffix, ".png";
    assert ext[0] == '.' && ext[1] != '.' && ext[2] != '.' && ext[3] != '.';
    assert LastIndex(ext, '.') == 0;
    LastIndexAppend(head, ext, '.');
    assert stem + Suffix + ".png" == head + ext;
    assert (head + ext)[..|head|] == head;
    assert head[|stem|] == '_';
    assert HasNonDot(head);
  }

  /**
   * Under a plain directory name the output is `dir/<stem>_with_logo.png`, its
   * file name is the cap's stem with the suffix, and splitting off its
   * extension again gives back exactly the stem with the suffix.
   */
  lemma {:induction false} WithLogoPathShape(dir: string, capPath: string)
    requires |dir| > 0 && dir[|dir| - 1] != '/'
    ensures WithLogoPath(dir, capPath) == dir + "/" + OutputName(capPath)
    ensures Basename(WithLogoPath(dir, capPath)) == OutputName(capPath)
    ensures Stem(OutputName(capPath)) == Stem(Basename(capPath)) + Suffix
  {
    var stem := Stem(Basename(capPath));
    JoinPlain(dir, OutputName(capPath));
    StemOfOutputName(stem);
    assert OutputName(capPath) == stem + Suffix + ".png";
  }
}
