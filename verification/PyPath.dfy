/**
  The POSIX flavour of Python's `os.path` functions used by the scripts and
  the bot: `basename`, two-argument `join` and `splitext`.
 */
module PyPath {
  import opened PyStr

  const Sep: char := '/'

  /** `os.path.basename(p)`: the part after the last separator. */
  function Basename(p: string): (b: string)
    ensures Sep !in b
  {
    var k := LastIndexOf(p, Sep);
    var b := p[k + 1..];
    assert Sep !in b by {
      forall j | 0 <= j < |b| ensures b[j] != Sep {
        assert b[j] == p[k + 1 + j];
      }
    }
    b
  }

  /** The base name is the tail of the path that follows its last
      separator, or the whole path when it has none. */
  lemma BasenameIsLastComponent(p: string)
    ensures EndsWith(p, Basename(p))
    ensures var b := Basename(p); |b| < |p| ==> p[|p| - |b| - 1] == Sep
    ensures Sep !in p ==> Basename(p) == p
  {
    if Sep !in p {
      LastIndexOfIs(p, Sep, -1);
    }
  }

  /** `os.path.join(a, b)`: an absolute `b` replaces `a`; otherwise a
      separator is inserted unless `a` is empty or already ends with one. */
  function Join(a: string, b: string): (r: string)
    ensures StartsWith(b, [Sep]) ==> r == b
    ensures !StartsWith(b, [Sep]) ==> EndsWith(r, b) && StartsWith(r, a)
    ensures !StartsWith(b, [Sep]) ==>
      |r| == |a| + |b| + (if a == [] || a[|a| - 1] == Sep then 0 else 1)
    ensures !StartsWith(b, [Sep]) && |r| > |a| + |b| ==> r[|a|] == Sep
  {
    if StartsWith(b, [Sep]) then b
    else if |a| == 0 || EndsWith(a, [Sep]) then a + b
    else a + [Sep] + b
  }

  /** A separator-free name joined onto a folder sits directly inside it:
      the folder, at most one separator, then the name, which is the base
      name of the result. */
  lemma BasenameOfJoin(dir: string, name: string)
    requires Sep !in name
    ensures Basename(Join(dir, name)) == name
    ensures StartsWith(Join(dir, name), dir)
    ensures |Join(dir, name)| == |dir| + |name| + (if dir == [] || dir[|dir| - 1] == Sep then 0 else 1)
  {
    assert !StartsWith(name, [Sep]) by {
      if |name| > 0 { assert name[0] in name; }
    }
    if |dir| == 0 || EndsWith(dir, [Sep]) {
      assert Join(dir, name) == dir + name;
      BasenameAfterSeparator(dir, name);
    } else {
      assert Join(dir, name) == (dir + [Sep]) + name;
      BasenameAfterSeparator(dir + [Sep], name);
    }
  }

  /** A separator-free name after a prefix that is empty or ends with a
      separator is the base name. */
  lemma BasenameAfterSeparator(prefix: string, name: string)
    requires Sep !in name
    requires |prefix| == 0 || prefix[|prefix| - 1] == Sep
    ensures Basename(prefix + name) == name
  {
    var p := prefix + name;
    NoSeparatorAfter(prefix, name);
    LastIndexOfIs(p, Sep, |prefix| - 1);
    assert p[|prefix|..] == name;
  }

  lemma NoSeparatorAfter(prefix: string, name: string)
    requires Sep !in name
    ensures forall j :: |prefix| <= j < |prefix + name| ==> (prefix + name)[j] != Sep
  {
    forall j | |prefix| <= j < |prefix + name| ensures (prefix + name)[j] != Sep {
      assert (prefix + name)[j] == name[j - |prefix|];
    }
  }

  /** Some character in `[from, dot)` is not a dot. */
  predicate HasNonDotBefore(p: string, from: int, dot: int)
    requires 0 <= from && dot <= |p|
  {
    exists i :: from <= i < dot && p[i] != '.'
  }

  /** The base name has a dot that follows some other character of the base
      name, so a leading run of dots (".bashrc", "..x") does not count. */
  predicate HasExtension(p: string) {
    exists i, j :: LastIndexOf(p, Sep) < i < j < |p| && p[i] != '.' && p[j] == '.'
  }

  /** `os.path.splitext(p)`: splits off the last dot-suffix of the base
      name, unless the base name is dots up to that point (".bashrc"). */
  function SplitExt(p: string): (parts: (string, string))
    ensures parts.0 + parts.1 == p
    ensures parts.1 == [] || (parts.1[0] == '.' && '.' !in parts.1[1..] && Sep !in parts.1)
    ensures parts.1 != [] <==> HasExtension(p)
  {
    var sepIndex := LastIndexOf(p, Sep);
    var dotIndex := LastIndexOf(p, '.');
    if dotIndex > sepIndex && HasNonDotBefore(p, sepIndex + 1, dotIndex) then
      var ext := p[dotIndex..];
      assert '.' !in ext[1..] && Sep !in ext by {
        forall j | 0 <= j < |ext| ensures ext[j] != Sep && (j > 0 ==> ext[j] != '.') {
          assert ext[j] == p[dotIndex + j];
        }
      }
      (p[..dotIndex], ext)
    else (p, [])
  }

  /** A file name with a stem that is not all dots splits at its last dot. */
  lemma SplitExtOfName(stem: string, ext: string)
    requires Sep !in stem && Sep !in ext && '.' !in ext
    requires exists i :: 0 <= i < |stem| && stem[i] != '.'
    ensures SplitExt(stem + "." + ext) == (stem, "." + ext)
  {
    var p := stem + "." + ext;
    assert LastIndexOf(p, '.') == |stem| by {
      assert p[|stem|] == '.';
      forall j | |stem| < j < |p| ensures p[j] != '.' {
        assert p[j] == ext[j - |stem| - 1];
      }
    }
    assert LastIndexOf(p, Sep) < |stem| by {
      forall j | 0 <= j < |p| ensures p[j] != Sep {
        if j < |stem| {
          assert p[j] == stem[j];
        } else if j > |stem| {
          assert p[j] == ext[j - |stem| - 1];
        }
      }
    }
    var i :| 0 <= i < |stem| && stem[i] != '.';
    assert p[i] == stem[i];
    assert HasNonDotBefore(p, LastIndexOf(p, Sep) + 1, |stem|);
    assert p[..|stem|] == stem;
    assert p[|stem|..] == "." + ext;
  }
}
