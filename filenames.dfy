/** File-name helpers: `str.rfind`, `os.path.splitext` and `pathlib.PurePath.suffix`
    applied to a bare file name (a directory entry's name, so no '/' in it). */
module FileNames {
  import opened Text

  /** True when some character of `s` is not a dot. */
  predicate HasNonDot(s: string) {
    exists k :: 0 <= k < |s| && s[k] != '.'
  }

  /** `s.rfind(c)`: the index of the last `c` in `s`, or -1 when there is none. */
  function RFind(s: string, c: char): (i: int)
    ensures -1 <= i < |s|
    ensures i >= 0 ==> s[i] == c
    ensures forall k :: i < k < |s| ==> s[k] != c
  {
    if s == [] then -1
    else if s[|s| - 1] == c then |s| - 1
    else RFind(s[..|s| - 1], c)
  }

  /** `os.path.splitext(name)`: the extension starts at the last dot, unless
      every character before that dot is itself a dot (so ".png" and "..png"
      have no extension). */
  function SplitExt(name: string): (r: (string, string))
    ensures r.0 + r.1 == name
    ensures r.1 != [] ==> r.1[0] == '.' && HasNonDot(r.0)
    ensures forall k :: 1 <= k < |r.1| ==> r.1[k] != '.'
  {
    var d := RFind(name, '.');
    if d >= 0 && HasNonDot(name[..d]) then (name[..d], name[d..]) else (name, "")
  }

  /** The extension is empty only when no dot in the name follows a non-dot
      character. */
  lemma SplitExtNoExtension(name: string)
    ensures SplitExt(name).1 == [] ==>
      forall k :: 0 <= k < |name| && name[k] == '.' ==> !HasNonDot(name[..k])
  {
    var d := RFind(name, '.');
    if SplitExt(name).1 == [] {
      forall k | 0 <= k < |name| && name[k] == '.' ensures !HasNonDot(name[..k]) {
        assert k <= d;
        assert forall j :: 0 <= j < k ==> name[..k][j] == name[..d][j];
      }
    }
  }

  /** The quiz's answer for an image: its file name without the extension. */
  function Stem(name: string): (stem: string)
    ensures |stem| <= |name| && name[..|stem|] == stem
  {
    SplitExt(name).0
  }

  /** `Path(name).suffix`: from the last dot to the end, provided that dot is
      neither the first nor the last character; otherwise empty. */
  function Suffix(name: string): (r: string)
    ensures r != [] ==> 2 <= |r| < |name| && EndsWith(name, r) && r[0] == '.'
    ensures forall k :: 1 <= k < |r| ==> r[k] != '.'
  {
    var i := RFind(name, '.');
    if 0 < i < |name| - 1 then name[i..] else ""
  }

  /** The suffix is empty exactly when every dot strictly inside the name is
      followed by a later dot (no dot, or the last dot comes first or last). */
  lemma SuffixEmpty(name: string)
    ensures Suffix(name) == [] <==>
      forall i :: 0 < i < |name| - 1 && name[i] == '.' ==> exists j :: i < j < |name| && name[j] == '.'
  {
    var d := RFind(name, '.');
    if 0 < d < |name| - 1 {
      assert !(exists j :: d < j < |name| && name[j] == '.');
    }
  }

  /** The quiz's filter: `f.lower().endswith('.png')`. */
  predicate IsPngName(f: string) {
    EndsWith(Lower(f), ".png")
  }

  /** For a ".png" file whose name has something other than dots before the
      extension, the answer is the name minus its last four characters. */
  lemma PngStem(f: string)
    requires IsPngName(f) && HasNonDot(f[..|f| - 4])
    ensures Stem(f) == f[..|f| - 4]
  {
    var n := |f| - 4;
    assert Lower(f)[n..] == ".png";
    assert f[n] == '.' by { assert LowerChar(f[n]) == '.'; }
    forall k | n < k < |f| ensures f[k] != '.' {
      assert LowerChar(f[k]) == ".png"[k - n];
    }
    assert RFind(f, '.') == n;
  }
}
