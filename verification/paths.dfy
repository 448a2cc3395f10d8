/**
 File-name handling of `batch_convert_to_hdf5`: which directory entries are
 selected and which output name each gets. `OutputName` follows
 `posixpath.splitext` exactly, including its rule that leading dots of a name
 do not start an extension.
 */
module Paths {

  const PklSuffix: string := ".pkl"
  const Hdf5Suffix: string := ".hdf5"

  /** `s.endswith(suffix)`: `s` splits into some head followed by `suffix`. */
  predicate EndsWith(s: string, suffix: string)
    ensures EndsWith(s, suffix) ==> |suffix| <= |s| && s == s[..|s| - |suffix|] + suffix
  {
    |suffix| <= |s| && s[|s| - |suffix|..] == suffix
  }

  /** Conversely, any head followed by `suffix` ends with `suffix`. */
  lemma EndsWithAppend(head: string, suffix: string)
    ensures EndsWith(head + suffix, suffix)
  {
    assert (head + suffix)[|head|..] == suffix;
  }

  /** `s.rfind(c)`: the last index holding `c`, or -1. */
  function LastIndexOf(s: string, c: char): (r: int)
    ensures -1 <= r < |s|
    ensures r >= 0 ==> s[r] == c
    ensures forall j :: r < j < |s| ==> s[j] != c
  {
    if |s| == 0 then -1
    else if s[|s| - 1] == c then |s| - 1
    else LastIndexOf(s[..|s| - 1], c)
  }

  /** True when every character of `p[lo..hi]` is a dot. */
  predicate AllDots(p: string, lo: int, hi: int)
    requires 0 <= lo && hi <= |p|
  {
    forall k :: lo <= k < hi ==> p[k] == '.'
  }

  /** `posixpath.splitext(p)[0]`. The last dot starts the extension only if
      it lies after the last slash and some non-dot character precedes it
      within the final path component. */
  function SplitExtRoot(p: string): (root: string)
    ensures |root| <= |p| && root == p[..|root|]
  {
    var sep := LastIndexOf(p, '/');
    var dot := LastIndexOf(p, '.');
    if dot > sep && !AllDots(p, sep + 1, dot) then p[..dot] else p
  }

  /** The output file name: the input's root followed by `.hdf5`. A `.pkl`
      name with a non-dot character before the extension loses the `.pkl`;
      when only dots precede `.pkl`, `splitext` finds no extension and the
      whole name is kept. */
  function OutputName(name: string): (r: string)
    ensures EndsWith(r, Hdf5Suffix)
    ensures EndsWith(name, PklSuffix) && '/' !in name && !AllDots(name, 0, |name| - 4)
      ==> r == name[..|name| - 4] + Hdf5Suffix
    ensures EndsWith(name, PklSuffix) && '/' !in name && AllDots(name, 0, |name| - 4)
      ==> r == name + Hdf5Suffix
  {
    EndsWithAppend(SplitExtRoot(name), Hdf5Suffix);
    assert EndsWith(name, PklSuffix) && '/' !in name ==>
      name[|name| - 4] == '.' && LastIndexOf(name, '/') == -1 && LastIndexOf(name, '.') == |name| - 4;
    SplitExtRoot(name) + Hdf5Suffix
  }

  /** `[f for f in listing if f.endswith('.pkl')]`. */
  function PklFiles(listing: seq<string>): (files: seq<string>)
    ensures |files| <= |listing|
    ensures forall f :: f in files <==> f in listing && EndsWith(f, PklSuffix)
  {
    if |listing| == 0 then []
    else
      var rest := PklFiles(listing[1..]);
      assert forall f :: f in listing <==> f == listing[0] || f in listing[1..];
      if EndsWith(listing[0], PklSuffix) then [listing[0]] + rest else rest
  }

  /** The selection keeps the listing order: filtering a concatenation
      concatenates the filtered parts. */
  lemma {:induction false} PklFilesConcat(a: seq<string>, b: seq<string>)
    ensures PklFiles(a + b) == PklFiles(a) + PklFiles(b)
  {
    if |a| > 0 {
      assert (a + b)[0] == a[0];
      assert (a + b)[1..] == a[1..] + b;
      PklFilesConcat(a[1..], b);
    } else {
      assert a + b == b;
    }
  }

  /** Distinct ordinary `.pkl` names get distinct output names. */
  lemma OutputNameInjective(a: string, b: string)
    requires EndsWith(a, PklSuffix) && '/' !in a && !AllDots(a, 0, |a| - 4)
    requires EndsWith(b, PklSuffix) && '/' !in b && !AllDots(b, 0, |b| - 4)
    requires OutputName(a) == OutputName(b)
    ensures a == b
  {
    CancelSuffix(a[..|a| - 4], b[..|b| - 4], Hdf5Suffix);
  }

  lemma CancelSuffix(x: string, y: string, suffix: string)
    requires x + suffix == y + suffix
    ensures x == y
  {
    assert x == (x + suffix)[..|x|];
    assert y == (y + suffix)[..|y|];
  }

  /** Two different selected names can share an output name: `..pkl` keeps
      its whole name as root, `..pkl.pkl` has root `..pkl`. */
  lemma OutputNamesCanCollide()
    ensures EndsWith("..pkl", PklSuffix) && EndsWith("..pkl.pkl", PklSuffix)
    ensures OutputName("..pkl") == OutputName("..pkl.pkl") == "..pkl.hdf5"
  {
    DotOnlyCollider();
    OrdinaryCollider();
  }

  lemma DotOnlyCollider()
    ensures EndsWith("..pkl", PklSuffix)
    ensures OutputName("..pkl") == "..pkl.hdf5"
  {
    var a := "..pkl";
    assert EndsWith(a, PklSuffix) by { assert a[1..] == PklSuffix; }
    assert AllDots(a, 0, 1);
    assert '/' !in a;
  }

  lemma OrdinaryCollider()
    ensures EndsWith("..pkl.pkl", PklSuffix)
    ensures OutputName("..pkl.pkl") == "..pkl.hdf5"
  {
    var b := "..pkl.pkl";
    assert EndsWith(b, PklSuffix) by { assert b[5..] == PklSuffix; }
    assert !AllDots(b, 0, 5) by { assert b[2] != '.'; }
    assert '/' !in b;
    assert b[..5] == "..pkl";
  }
}
