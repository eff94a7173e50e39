/**
 * String helpers shared by the controllers: the decimal rendering JavaScript uses for
 * integers inside template literals, substring search, ASCII lower-casing and the POSIX
 * rules of Node's `path.extname`.
 */
module Text {

  predicate IsDigit(c: char) {
    '0' <= c <= '9'
  }

  function DigitChar(d: nat): (c: char)
    requires d < 10
    ensures IsDigit(c)
  {
    (48 + d) as char
  }

  /** Decimal digits of `n`, most significant first, without leading zeros. */
  function NatToString(n: nat): (r: string)
    ensures |r| > 0
    ensures forall i :: 0 <= i < |r| ==> IsDigit(r[i])
    ensures n > 0 ==> r[0] != '0'
    decreases n
  {
    if n < 10 then [DigitChar(n)] else NatToString(n / 10) + [DigitChar(n % 10)]
  }

  /** `${i}` for an integer `i`: a minus sign for negatives, then the digits. */
  function IntToString(i: int): (r: string)
    ensures |r| > 0
    ensures '.' !in r && '/' !in r
  {
    var r := if i < 0 then "-" + NatToString(-i) else NatToString(i);
    assert forall k :: 0 <= k < |r| ==> r[k] == '-' || IsDigit(r[k]);
    r
  }

  /** `q` occurs in `s` as a contiguous block. */
  predicate Contains(s: string, q: string) {
    exists i :: 0 <= i <= |s| && q <= s[i..]
  }

  function LowerChar(c: char): char {
    if 'A' <= c <= 'Z' then (c as int + 32) as char else c
  }

  /** ASCII lower-casing, character by character. */
  function Lower(s: string): (r: string)
    ensures |r| == |s|
    ensures forall i :: 0 <= i < |s| ==> r[i] == LowerChar(s[i])
  {
    seq(|s|, i requires 0 <= i < |s| => LowerChar(s[i]))
  }

  /** A string with no upper-case ASCII letter is its own lower-casing. */
  lemma LowerOfLowercase(s: string)
    requires forall i :: 0 <= i < |s| ==> !('A' <= s[i] <= 'Z')
    ensures Lower(s) == s
  {
  }

  /** Position of the last `c` in `s`, or -1. */
  function LastIndex(s: string, c: char): (k: int)
    ensures -1 <= k < |s|
    ensures k >= 0 ==> s[k] == c
    ensures forall j :: k < j < |s| ==> s[j] != c
  {
    if s == [] then -1
    else if s[|s| - 1] == c then |s| - 1
    else LastIndex(s[..|s| - 1], c)
  }

  /** `s` without the slashes it ends with. */
  function TrimTrailingSlashes(s: string): (r: string)
    ensures |r| <= |s| && r == s[..|r|]
    ensures r == [] || r[|r| - 1] != '/'
    ensures forall j :: |r| <= j < |s| ==> s[j] == '/'
  {
    if s != [] && s[|s| - 1] == '/' then TrimTrailingSlashes(s[..|s| - 1]) else s
  }

  /** The extension of one path component that holds no slash. */
  function SegmentExtension(seg: string): (ext: string)
    ensures |ext| <= |seg|
    ensures ext == "" || (ext[0] == '.' && '.' !in ext[1..] && ext == seg[|seg| - |ext|..])
    ensures '/' !in seg ==> '/' !in ext
  {
    var k := LastIndex(seg, '.');
    if k <= 0 || seg == ".." then ""
    else
      assert forall j :: 1 <= j < |seg[k..]| ==> seg[k..][j] == seg[k + j];
      assert '/' !in seg ==> '/' !in seg[k..] by {
        if '/' !in seg { SuffixKeepsOut(seg, seg[k..], '/'); }
      }
      seg[k..]
  }

  /**
   * Node's `path.extname` on POSIX: trailing slashes are ignored, the last component is
   * taken, and the extension runs from its last dot to its end, unless that dot is the
   * component's first character or the component is `..`.
   */
  function Extname(path: string): (ext: string)
    ensures ext == "" || (ext[0] == '.' && '.' !in ext[1..] && '/' !in ext)
  {
    var trimmed := TrimTrailingSlashes(path);
    AfterLastIndex(trimmed, '/');
    SegmentExtension(trimmed[LastIndex(trimmed, '/') + 1..])
  }

  lemma AfterLastIndex(s: string, c: char)
    ensures c !in s[LastIndex(s, c) + 1..]
  {
    var k := LastIndex(s, c);
    var t := s[k + 1..];
    forall j | 0 <= j < |t| ensures t[j] != c {
      assert t[j] == s[k + 1 + j];
    }
  }

  lemma SuffixKeepsOut(s: string, t: string, c: char)
    requires |t| <= |s| && t == s[|s| - |t|..] && c !in s
    ensures c !in t
  {
    forall j | 0 <= j < |t| ensures t[j] != c {
      assert t[j] == s[|s| - |t| + j];
    }
  }

  /** The extension of `base.ext` is `.ext` when neither part holds a slash and `ext` holds no dot. */
  lemma ExtnameOfDotted(base: string, ext: string)
    requires base != [] && ext != []
    requires '/' !in base && '/' !in ext && '.' !in ext
    ensures Extname(base + "." + ext) == "." + ext
  {
    var s := base + "." + ext;
    assert s[|s| - 1] == ext[|ext| - 1];
    assert TrimTrailingSlashes(s) == s;
    assert LastIndex(s, '/') == -1 by {
      assert forall j :: 0 <= j < |s| ==> s[j] != '/';
    }
    assert s[0..] == s;
    assert SegmentExtension(s) == s[|base|..] by {
      LastDotOfDotted(base, ext);
    }
    assert s[|base|..] == "." + ext;
  }

  lemma LastDotOfDotted(base: string, ext: string)
    requires base != [] && '.' !in ext
    ensures LastIndex(base + "." + ext, '.') == |base|
  {
    NoDotInTail(base, ext);
    LastIndexAt(base + "." + ext, '.', |base|);
  }

  lemma NoDotInTail(base: string, ext: string)
    requires '.' !in ext
    ensures (base + "." + ext)[|base|] == '.'
    ensures forall j :: |base| < j < |base + "." + ext| ==> (base + "." + ext)[j] != '.'
  {
    var s := base + "." + ext;
    forall j | |base| < j < |s| ensures s[j] != '.' {
      assert s[j] == ext[j - |base| - 1];
    }
  }

  /** The last occurrence is at `k` when `s[k]` is `c` and no later character is. */
  lemma {:induction false} LastIndexAt(s: string, c: char, k: int)
    requires 0 <= k < |s| && s[k] == c
    requires forall j :: k < j < |s| ==> s[j] != c
    ensures LastIndex(s, c) == k
  {
    if k < |s| - 1 {
      var init := s[..|s| - 1];
      assert init[k] == c;
      forall j | k < j < |init| ensures init[j] != c {
        assert init[j] == s[j];
      }
      LastIndexAt(init, c, k);
    }
  }
}
