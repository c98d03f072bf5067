/**
 * `ellipsify` of src/components/ui/ui-layout.tsx: strings longer than 30
 * characters are shortened to their first `len` characters, "..", and
 * their last `len` characters, for display of keys and signatures.
 */
module UiLayout {

  const ELLIPSIS: string := ".."
  const DEFAULT_LEN: int := 4

  function Clamp(x: int, n: nat): nat
  {
    if x < 0 then 0 else if x > n then n else x
  }

  /**
   * JavaScript's `String.prototype.substring(start, end)`: both indices are
   * clamped to [0, |s|], and the smaller one starts the slice.
   */
  function Substring(s: string, start: int, end: int): (r: string)
    ensures |r| <= |s|
  {
    var a, b := Clamp(start, |s|), Clamp(end, |s|);
    if a <= b then s[a..b] else s[b..a]
  }

  /** `ellipsify(str, len)`. */
  function Ellipsify(s: string, len: int): (r: string)
    ensures |s| <= 30 ==> r == s
    ensures |s| > 30 && 0 <= len <= |s| ==> r == s[..len] + ELLIPSIS + s[|s| - len..]
  {
    if |s| > 30 then Substring(s, 0, len) + ELLIPSIS + Substring(s, |s| - len, |s|)
    else s
  }

  /** `ellipsify(str)` with the default `len = 4`. */
  function EllipsifyDefault(s: string): (r: string)
    ensures |s| > 30 ==> |r| == 10 && r[..4] == s[..4] && r[4..6] == ELLIPSIS && r[6..] == s[|s| - 4..]
    ensures |s| <= 30 ==> r == s
  {
    Ellipsify(s, DEFAULT_LEN)
  }

  /** `ellipsify()` with both defaults, `str = ''` and `len = 4`, is the empty string. */
  lemma EllipsifyEmpty()
    ensures Ellipsify("", DEFAULT_LEN) == ""
    ensures EllipsifyDefault("") == ""
  {
  }

  /**
   * A long string always becomes some prefix of it, "..", and some suffix
   * of it, of the same length, which is `len` clamped to [0, |s|].
   */
  lemma EllipsifyShape(s: string, len: int)
    requires |s| > 30
    ensures var k := Clamp(len, |s|);
            && |Ellipsify(s, len)| == 2 * k + 2
            && Ellipsify(s, len)[..k] == s[..k]
            && Ellipsify(s, len)[k..k + 2] == ELLIPSIS
            && Ellipsify(s, len)[k + 2..] == s[|s| - k..]
  {
    var k := Clamp(len, |s|);
    assert Substring(s, 0, len) == s[..k];
    assert Substring(s, |s| - len, |s|) == s[|s| - k..];
  }

  /** For `len` up to 14 a long string comes out strictly shorter, at most 30 characters. */
  lemma EllipsifyShortens(s: string, len: int)
    requires |s| > 30 && len <= 14
    ensures |Ellipsify(s, len)| <= 30 < |s|
  {
    EllipsifyShape(s, len);
  }

  /** With `len` up to 14, shortening an already shortened string changes nothing. */
  lemma EllipsifyIdempotent(s: string, len: int)
    requires len <= 14
    ensures Ellipsify(Ellipsify(s, len), len) == Ellipsify(s, len)
  {
    if |s| > 30 {
      EllipsifyShortens(s, len);
    }
  }
}
