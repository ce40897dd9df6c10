/** The Python string and path primitives the labelling scripts rely on:
    substring tests (`a in b`), ASCII lower-casing, `str.strip(c)`,
    `str.endswith`, `os.path.basename`, `os.path.splitext`, `os.path.join`,
    decimal rendering of integers, and list comprehensions that filter. */
module Text {

  /** `needle` occurs in `hay` starting at position `i`. */
  predicate OccursAt(needle: string, hay: string, i: int) {
    0 <= i <= |hay| - |needle| && hay[i..i + |needle|] == needle
  }

  /** Python's `needle in hay` on two strings: `needle` is a prefix of `hay`
      or occurs in what follows its first character. */
  predicate IsSubstring(needle: string, hay: string)
    decreases |hay|
  {
    |needle| <= |hay| && (hay[..|needle|] == needle || IsSubstring(needle, hay[1..]))
  }

  /** `needle in hay` holds exactly when `needle` occurs at some position. */
  lemma {:induction false} IsSubstringAt(needle: string, hay: string)
    decreases |hay|
    ensures IsSubstring(needle, hay) <==> exists i :: OccursAt(needle, hay, i)
  {
    if |needle| <= |hay| && hay == [] {
      assert OccursAt(needle, hay, 0);
    } else if |needle| <= |hay| {
      IsSubstringAt(needle, hay[1..]);
      if IsSubstring(needle, hay) && hay[..|needle|] != needle {
        var i :| OccursAt(needle, hay[1..], i);
        assert hay[i + 1..i + 1 + |needle|] == hay[1..][i..i + |needle|];
        assert OccursAt(needle, hay, i + 1);
      }
      if hay[..|needle|] == needle {
        assert OccursAt(needle, hay, 0);
      }
      if (exists i :: OccursAt(needle, hay, i)) && hay[..|needle|] != needle {
        var i :| OccursAt(needle, hay, i);
        assert i > 0;
        assert hay[1..][i - 1..i - 1 + |needle|] == hay[i..i + |needle|];
        assert OccursAt(needle, hay[1..], i - 1);
      }
    }
  }

  /** `s.endswith(suffix)`. */
  predicate EndsWith(s: string, suffix: string) {
    |suffix| <= |s| && s[|s| - |suffix|..] == suffix
  }

  /** A string ends with what was appended to it. */
  lemma EndsWithAppend(s: string, suffix: string)
    ensures EndsWith(s + suffix, suffix)
  {
    assert (s + suffix)[|s|..] == suffix;
  }

  /** A suffix of a suffix is a suffix. */
  lemma EndsWithTrans(s: string, t: string, u: string)
    requires EndsWith(s, t) && EndsWith(t, u)
    ensures EndsWith(s, u)
  {
    assert s[|s| - |u|..] == t[|t| - |u|..];
  }

  predicate IsUpper(c: char) {
    'A' <= c <= 'Z'
  }

  function LowerChar(c: char): char {
    if IsUpper(c) then (c as int + 32) as char else c
  }

  /** A character that is not in `s` is not in any prefix of it. */
  lemma PrefixAbsent(s: string, n: nat, c: char)
    requires n <= |s| && c !in s
    ensures c !in s[..n]
  {
    forall i | 0 <= i < n ensures s[..n][i] != c {
      assert s[..n][i] == s[i];
    }
  }

  /** Lower-casing does not produce a character that is not a lower-case
      letter unless it was there already. */
  lemma ToLowerAbsent(s: string, c: char)
    requires c !in s && !('a' <= c <= 'z')
    ensures c !in ToLower(s)
  {
    forall i | 0 <= i < |s| ensures ToLower(s)[i] != c {
      assert ToLower(s)[i] == LowerChar(s[i]);
    }
  }

  /** `s.lower()`, restricted to the ASCII letters. */
  function ToLower(s: string): (r: string)
    ensures |r| == |s|
    ensures forall i :: 0 <= i < |s| ==> !IsUpper(r[i])
    ensures forall i :: 0 <= i < |s| && !IsUpper(s[i]) ==> r[i] == s[i]
    ensures forall i :: 0 <= i < |s| ==> r[i] == LowerChar(s[i])
  {
    if s == [] then [] else [LowerChar(s[0])] + ToLower(s[1..])
  }

  /** Lower-casing a string with no upper-case letter leaves it alone. */
  lemma {:induction false} ToLowerOfLower(s: string)
    requires forall i :: 0 <= i < |s| ==> !IsUpper(s[i])
    ensures ToLower(s) == s
  {
    if s != [] {
      ToLowerOfLower(s[1..]);
    }
  }

  /** A string containing an upper-case letter never occurs in a lower-cased one. */
  lemma UpperNeverInLowered(key: string, name: string, p: nat)
    requires p < |key| && IsUpper(key[p])
    ensures !IsSubstring(key, ToLower(name))
  {
    var low := ToLower(name);
    IsSubstringAt(key, low);
    forall i | 0 <= i <= |low| - |key| ensures !OccursAt(key, low, i) {
      assert low[i..i + |key|][p] == low[i + p];
    }
  }

  /** `s.strip(c)`: leading and trailing `c` removed, one at a time. */
  function Strip(s: string, c: char): (r: string)
    decreases |s|
    ensures |r| <= |s|
    ensures r == [] || (r[0] != c && r[|r| - 1] != c)
  {
    if s != [] && s[0] == c then Strip(s[1..], c)
    else if s != [] && s[|s| - 1] == c then Strip(s[..|s| - 1], c)
    else s
  }

  /** `s` is `r` at position `i` with nothing but `c` around it. */
  predicate SurroundedBy(s: string, r: string, i: int, c: char) {
    OccursAt(r, s, i)
    && (forall j :: 0 <= j < i ==> s[j] == c)
    && (forall j :: i + |r| <= j < |s| ==> s[j] == c)
  }

  /** What `Strip` keeps is a slice of `s` with nothing but `c` cut off
      around it: the longest such slice, since it neither starts nor ends
      with `c`. */
  lemma {:induction false} StripIsSurroundedSlice(s: string, c: char)
    decreases |s|
    ensures exists i :: SurroundedBy(s, Strip(s, c), i, c)
  {
    var r := Strip(s, c);
    if s != [] && s[0] == c {
      StripIsSurroundedSlice(s[1..], c);
      var i :| SurroundedBy(s[1..], r, i, c);
      SurroundedCons(s, r, i, c);
    } else if s != [] && s[|s| - 1] == c {
      StripIsSurroundedSlice(s[..|s| - 1], c);
      var i :| SurroundedBy(s[..|s| - 1], r, i, c);
      SurroundedSnoc(s, r, i, c);
    } else {
      assert s[0..|s|] == s;
      assert SurroundedBy(s, r, 0, c);
    }
  }

  /** Putting one more `c` in front keeps a slice surrounded by `c`. */
  lemma SurroundedCons(s: string, r: string, i: int, c: char)
    requires s != [] && s[0] == c && SurroundedBy(s[1..], r, i, c)
    ensures SurroundedBy(s, r, i + 1, c)
  {
    var t := s[1..];
    assert s[i + 1..i + 1 + |r|] == t[i..i + |r|];
    forall j | 0 <= j < i + 1 ensures s[j] == c {
      if j > 0 { assert s[j] == t[j - 1]; }
    }
    forall j | i + 1 + |r| <= j < |s| ensures s[j] == c {
      assert s[j] == t[j - 1];
    }
  }

  /** Putting one more `c` behind keeps a slice surrounded by `c`. */
  lemma SurroundedSnoc(s: string, r: string, i: int, c: char)
    requires s != [] && s[|s| - 1] == c && SurroundedBy(s[..|s| - 1], r, i, c)
    ensures SurroundedBy(s, r, i, c)
  {
    var t := s[..|s| - 1];
    assert s[i..i + |r|] == t[i..i + |r|];
    forall j | i + |r| <= j < |s| ensures s[j] == c {
      if j < |t| { assert s[j] == t[j]; }
    }
  }

  /** A string that neither starts nor ends with `c` is left alone by `Strip`. */
  lemma StripUnchanged(s: string, c: char)
    requires s == [] || (s[0] != c && s[|s| - 1] != c)
    ensures Strip(s, c) == s
  {
  }

  /** Stripping is idempotent. */
  lemma StripIdempotent(s: string, c: char)
    ensures Strip(Strip(s, c), c) == Strip(s, c)
  {
    StripUnchanged(Strip(s, c), c);
  }

  /** One more `c` at the end changes nothing that `Strip` keeps. */
  lemma {:induction false} StripSnocStrip(s: string, c: char)
    decreases |s|
    ensures Strip(s + [c], c) == Strip(s, c)
  {
    if s == [] {
      assert Strip([c][1..], c) == Strip(s, c);
    } else if s[0] == c {
      assert (s + [c])[1..] == s[1..] + [c];
      StripSnocStrip(s[1..], c);
    } else {
      assert (s + [c])[..|s|] == s;
    }
  }

  /** `c` on both sides changes nothing that `Strip` keeps: a quoted and an
      unquoted value strip to the same string. */
  lemma StripWrapped(s: string, c: char)
    ensures Strip([c] + s + [c], c) == Strip(s, c)
  {
    assert ([c] + s + [c])[1..] == s + [c];
    StripSnocStrip(s, c);
  }

  /** `s.rfind(c)`: the last position holding `c`, or -1. */
  function RFind(s: string, c: char): (r: int)
    ensures -1 <= r < |s|
    ensures r >= 0 ==> s[r] == c
    ensures forall j :: r < j < |s| ==> s[j] != c
  {
    if s == [] then -1
    else if s[|s| - 1] == c then |s| - 1
    else RFind(s[..|s| - 1], c)
  }

  /** `os.path.basename(p)`: what follows the last '/'. */
  function BaseName(p: string): (r: string)
    ensures EndsWith(p, r)
    ensures '/' !in r
    ensures '/' !in p ==> r == p
  {
    p[RFind(p, '/') + 1..]
  }

  /** `os.path.splitext(p)[0]`: `p` without its last extension. The extension
      starts at the last '.' after the last '/', provided some character other
      than '.' precedes that dot in the final component (so ".bashrc" has none). */
  function StripExtension(p: string): (r: string)
    ensures |r| <= |p| && r == p[..|r|]
    ensures r != p ==> p[|r|] == '.' && '/' !in p[|r|..]
  {
    var sep := RFind(p, '/');
    var dot := RFind(p, '.');
    if dot > sep && exists k | sep + 1 <= k < dot :: p[k] != '.' then
      assert forall j :: 0 <= j < |p[dot..]| ==> p[dot..][j] == p[dot + j];
      p[..dot]
    else
      p
  }

  /** `os.path.join(a, b)` on POSIX: an absolute `b` replaces `a`. */
  function PathJoin(a: string, b: string): (r: string)
    ensures EndsWith(r, b)
    ensures (b == [] || b[0] != '/') && a != [] && a[|a| - 1] != '/' ==> r == a + "/" + b
  {
    if b != [] && b[0] == '/' then b
    else if a == [] || a[|a| - 1] == '/' then a + b
    else a + "/" + b
  }

  function Digit(d: nat): (c: char)
    requires d < 10
    ensures '0' <= c <= '9'
  {
    ('0' as int + d) as char
  }

  /** `str(n)` for a natural number. */
  function NatToString(n: nat): (r: string)
    ensures 1 <= |r|
    ensures forall k :: 0 <= k < |r| ==> '0' <= r[k] <= '9'
  {
    if n < 10 then [Digit(n)] else NatToString(n / 10) + [Digit(n % 10)]
  }

  /** `str(i)` for an integer. */
  function IntToString(i: int): (r: string)
    ensures 1 <= |r|
    ensures (r[0] == '-') <==> i < 0
  {
    if i < 0 then "-" + NatToString(-i) else NatToString(i)
  }

  /** A list comprehension `[x for x in s if p(x)]` over strings. */
  function Filter(s: seq<string>, p: string -> bool): (r: seq<string>)
    ensures |r| <= |s|
    ensures forall x :: x in r <==> x in s && p(x)
  {
    if s == [] then [] else (if p(s[0]) then [s[0]] else []) + Filter(s[1..], p)
  }

  /** Filtering keeps the order of its input: it distributes over concatenation. */
  lemma {:induction false} FilterAppend(a: seq<string>, b: seq<string>, p: string -> bool)
    ensures Filter(a + b, p) == Filter(a, p) + Filter(b, p)
  {
    if a == [] {
      assert a + b == b;
    } else {
      assert (a + b)[1..] == a[1..] + b;
      FilterAppend(a[1..], b, p);
    }
  }

  /** The head of a filter is the first element that passes, and the filter is
      empty exactly when no element passes. */
  lemma FilterFirst(s: seq<string>, p: string -> bool)
    ensures Filter(s, p) == [] <==> forall i :: 0 <= i < |s| ==> !p(s[i])
    ensures Filter(s, p) != [] ==>
      exists i :: 0 <= i < |s| && p(s[i]) && Filter(s, p)[0] == s[i]
        && forall j :: 0 <= j < i ==> !p(s[j])
  {
    if Filter(s, p) == [] {
      forall i | 0 <= i < |s| ensures !p(s[i]) {
        assert s[i] in s;
      }
    } else {
      FilterHead(s, p);
    }
  }

  /** The head of a non-empty filter is the first element that passes. */
  lemma {:induction false} FilterHead(s: seq<string>, p: string -> bool)
    requires Filter(s, p) != []
    ensures exists i :: 0 <= i < |s| && p(s[i]) && Filter(s, p)[0] == s[i]
                        && forall j :: 0 <= j < i ==> !p(s[j])
  {
    if p(s[0]) {
      assert Filter(s, p)[0] == s[0];
    } else {
      var t := s[1..];
      assert Filter(s, p) == Filter(t, p);
      FilterHead(t, p);
      var i :| 0 <= i < |t| && p(t[i]) && Filter(t, p)[0] == t[i] && forall j :: 0 <= j < i ==> !p(t[j]);
      assert t[i] == s[i + 1];
      forall j | 0 <= j < i + 1 ensures !p(s[j]) {
        if j > 0 { assert s[j] == t[j - 1]; }
      }
    }
  }
}
