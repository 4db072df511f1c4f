/** Value-level helpers shared by the reader and terminal models: an Option type,
    bytes, and the few Python string operations the bridge relies on
    (`str.strip()`, `str.replace(c, "")`, `sep.join(filter(None, parts))`). */
module Common {

  datatype Option<+T> = None | Some(value: T)

  newtype byte = x: int | 0 <= x < 256

  /** The byte value of '\n'. */
  const NL: byte := 10

  /** Python's `str.isspace()`: the characters `str.strip()` removes. */
  predicate IsSpace(c: char)
  {
    c == ' ' || ('\t' <= c <= '\r') || ('\U{1C}' <= c <= '\U{1F}')
    || c == '\U{85}' || c == '\U{A0}' || c == '\U{1680}'
    || ('\U{2000}' <= c <= '\U{200A}') || c == '\U{2028}' || c == '\U{2029}'
    || c == '\U{202F}' || c == '\U{205F}' || c == '\U{3000}'
  }

  predicate AllSpace(s: string)
  {
    forall i :: 0 <= i < |s| ==> IsSpace(s[i])
  }

  /** The index of the first non-whitespace character at or after `i` (`|s|` when
      there is none). */
  function SkipSpaces(s: string, i: nat): (r: nat)
    requires i <= |s|
    ensures i <= r <= |s|
    ensures forall k :: i <= k < r ==> IsSpace(s[k])
    ensures r == |s| || !IsSpace(s[r])
    decreases |s| - i
  {
    if i < |s| && IsSpace(s[i]) then SkipSpaces(s, i + 1) else i
  }

  /** The index just past the last non-whitespace character in `s[lo..j]` (`lo` when
      there is none). */
  function SkipSpacesBack(s: string, lo: nat, j: nat): (r: nat)
    requires lo <= j <= |s|
    ensures lo <= r <= j
    ensures forall k :: r <= k < j ==> IsSpace(s[k])
    ensures r == lo || !IsSpace(s[r - 1])
    decreases j
  {
    if lo < j && IsSpace(s[j - 1]) then SkipSpacesBack(s, lo, j - 1) else j
  }

  /** `s.strip()` */
  function Strip(s: string): (r: string)
  {
    var a := SkipSpaces(s, 0);
    s[a..SkipSpacesBack(s, a, |s|)]
  }

  /** What `Strip` keeps is an infix of `s` that starts and ends with a non-space,
      and everything it drops is whitespace. */
  lemma StripIsInfix(s: string)
    ensures exists i, j ::
      && 0 <= i <= j <= |s| && Strip(s) == s[i..j]
      && (forall k :: 0 <= k < i ==> IsSpace(s[k]))
      && (forall k :: j <= k < |s| ==> IsSpace(s[k]))
    ensures Strip(s) == [] || (!IsSpace(Strip(s)[0]) && !IsSpace(Strip(s)[|Strip(s)| - 1]))
  {
    var a := SkipSpaces(s, 0);
    var b := SkipSpacesBack(s, a, |s|);
    assert Strip(s) == s[a..b];
    if a < b {
      assert Strip(s)[0] == s[a];
      assert Strip(s)[|Strip(s)| - 1] == s[b - 1];
    }
  }

  /** Stripping is idempotent, so a stripped reply is its own normal form. */
  lemma StripIdempotent(s: string)
    ensures Strip(Strip(s)) == Strip(s)
  {
    var t := Strip(s);
    StripIsInfix(s);
    if t != [] {
      assert SkipSpaces(t, 0) == 0;
      assert SkipSpacesBack(t, 0, |t|) == |t|;
      assert t[0..|t|] == t;
    }
  }

  /** `Strip` keeps exactly the infix between whitespace ends that starts and ends
      with a non-space. */
  lemma StripUnique(s: string, i: nat, j: nat)
    requires i < j <= |s| && !IsSpace(s[i]) && !IsSpace(s[j - 1])
    requires forall k :: 0 <= k < i ==> IsSpace(s[k])
    requires forall k :: j <= k < |s| ==> IsSpace(s[k])
    ensures Strip(s) == s[i..j]
  {
    var a := SkipSpaces(s, 0);
    assert a == i;
    var b := SkipSpacesBack(s, a, |s|);
    assert b == j;
  }

  /** Trailing whitespace makes no difference to `Strip`. */
  lemma StripTrailing(s: string, m: nat)
    requires m <= |s|
    requires forall n :: m <= n < |s| ==> IsSpace(s[n])
    ensures Strip(s[..m]) == Strip(s)
  {
    var y := s[..m];
    var a := SkipSpaces(s, 0);
    var b := SkipSpacesBack(s, a, |s|);
    if a == b {
      StripEmptyIff(s);
      StripEmptyIff(y);
    } else {
      assert b <= m;
      StripUnique(y, a, b);
      assert y[a..b] == s[a..b];
    }
  }

  /** Stripping a string with a non-space `c` in it keeps `c`, some end of what
      precedes it, and what follows it up to its trailing whitespace. */
  lemma StripAroundNonSpace(p: string, c: char, q: string) returns (pre: string, m: nat)
    requires !IsSpace(c)
    ensures m <= |q| && forall n :: m <= n < |q| ==> IsSpace(q[n])
    ensures Strip(p + [c] + q) == pre + [c] + q[..m]
  {
    var x := p + [c] + q;
    var k := |p|;
    assert x[k] == c;
    var a := SkipSpaces(x, 0);
    var b := SkipSpacesBack(x, a, |x|);
    assert a <= k < b;
    pre := x[a..k];
    m := b - k - 1;
    assert x[k + 1..b] == q[..m];
    assert x[a..b] == pre + [c] + q[..m];
    forall n | m <= n < |q|
      ensures IsSpace(q[n])
    {
      assert x[k + 1 + n] == q[n];
    }
  }

  /** A string strips to "" exactly when it is all whitespace. */
  lemma StripEmptyIff(s: string)
    ensures Strip(s) == [] <==> AllSpace(s)
  {
    var a := SkipSpaces(s, 0);
    var b := SkipSpacesBack(s, a, |s|);
    if a == b {
      assert forall k :: 0 <= k < |s| ==> IsSpace(s[k]);
    } else {
      assert !IsSpace(s[b - 1]);
    }
  }

  /** `s.replace(c, "")` */
  function Remove(s: string, c: char): (r: string)
    ensures c !in r && |r| <= |s|
    ensures c !in s ==> r == s
  {
    if s == [] then []
    else
      var rest := Remove(s[1..], c);
      assert s == [s[0]] + s[1..];
      if s[0] == c then rest else [s[0]] + rest
  }

  /** Removing `c` keeps every other character, as often as it occurs. */
  lemma {:induction false} RemoveKeepsOthers(s: string, c: char)
    ensures forall d :: d != c ==> multiset(Remove(s, c))[d] == multiset(s)[d]
  {
    if s != [] {
      RemoveKeepsOthers(s[1..], c);
      assert s == [s[0]] + s[1..];
    }
  }

  /** `sep.join(filter(None, parts))`: empty parts are dropped before joining. */
  function JoinNonEmpty(sep: string, parts: seq<string>): string
  {
    if parts == [] then []
    else
      var rest := JoinNonEmpty(sep, parts[1..]);
      if parts[0] == [] then rest
      else if rest == [] then parts[0]
      else parts[0] + sep + rest
  }

  /** A join with a whitespace separator is all whitespace exactly when every part is. */
  lemma {:induction false} JoinNonEmptyAllSpace(sep: string, parts: seq<string>)
    requires AllSpace(sep)
    ensures AllSpace(JoinNonEmpty(sep, parts)) <==> forall k :: 0 <= k < |parts| ==> AllSpace(parts[k])
  {
    if parts != [] {
      JoinNonEmptyAllSpace(sep, parts[1..]);
      var rest := JoinNonEmpty(sep, parts[1..]);
      if parts[0] != [] && rest != [] {
        var j := parts[0] + sep + rest;
        assert forall k :: 0 <= k < |parts[0]| ==> j[k] == parts[0][k];
        assert forall k :: 0 <= k < |rest| ==> j[|parts[0]| + |sep| + k] == rest[k];
        assert forall k :: 0 <= k < |sep| ==> j[|parts[0]| + k] == sep[k];
      }
      if forall k :: 0 <= k < |parts| ==> AllSpace(parts[k]) {
        assert forall k :: 0 <= k < |parts[1..]| ==> AllSpace(parts[1..][k]) by {
          forall k | 0 <= k < |parts[1..]| ensures AllSpace(parts[1..][k]) {
            assert parts[1..][k] == parts[k + 1];
          }
        }
      } else {
        var k :| 0 <= k < |parts| && !AllSpace(parts[k]);
        if k > 0 {
          assert parts[1..][k - 1] == parts[k];
        }
      }
    }
  }

  /** The number of '\n' bytes in `s`. */
  function CountNewlines(s: seq<byte>): nat
  {
    if s == [] then 0
    else CountNewlines(s[..|s| - 1]) + (if s[|s| - 1] == NL then 1 else 0)
  }

  /** Python's `str(n)` for an integer. */
  function IntToString(n: int): (r: string)
    ensures r != []
  {
    if n < 0 then "-" + NatToString(-n) else NatToString(n)
  }

  function NatToString(n: nat): (r: string)
    ensures r != []
    ensures forall k :: 0 <= k < |r| ==> '0' <= r[k] <= '9'
    decreases n
  {
    var d := ['0' + (n % 10) as char];
    if n < 10 then d else NatToString(n / 10) + d
  }

  /** Python's `s.lower()` restricted to ASCII letters; the model only lowers
      strings to compare them with ASCII words such as "true". */
  function AsciiLower(s: string): (r: string)
    ensures |r| == |s|
    ensures forall k :: 0 <= k < |s| ==> r[k] == LowerChar(s[k])
  {
    if s == [] then [] else [LowerChar(s[0])] + AsciiLower(s[1..])
  }

  function LowerChar(c: char): char
  {
    if 'A' <= c <= 'Z' then (c as int + 32) as char else c
  }

  /** Where one pass over `ps` with `if mtime >= latest_mtime` ends: among the
      candidates that are present in `mtime` and not below `floor`, the LAST one with
      the greatest time. A stable sort by time followed by `[-1]` picks the same one
      (`floor == None`). */
  function NewestLast<P>(ps: seq<P>, mtime: map<P, int>, floor: Option<int>): (r: Option<P>)
    ensures r.Some? ==> r.value in mtime && r.value in ps
    decreases |ps|
  {
    if ps == [] then None
    else
      var prev := NewestLast(ps[..|ps| - 1], mtime, floor);
      var p := ps[|ps| - 1];
      if p in mtime && (if prev.Some? then mtime[p] >= mtime[prev.value] else floor.None? || mtime[p] >= floor.value)
      then Some(p)
      else prev
  }

  /** The scan returns a candidate at least as new as every other one, strictly newer
      than every candidate enumerated after it (so ties go to the later one), and
      nothing only when every candidate is below the floor. */
  lemma {:induction false} NewestLastIsNewest<P>(ps: seq<P>, mtime: map<P, int>, floor: Option<int>)
    ensures var r := NewestLast(ps, mtime, floor);
      r.Some? ==>
        (floor.Some? ==> mtime[r.value] >= floor.value)
        && (forall j :: 0 <= j < |ps| && ps[j] in mtime ==> mtime[ps[j]] <= mtime[r.value])
        && exists i :: 0 <= i < |ps| && ps[i] == r.value
             && forall j :: i < j < |ps| && ps[j] in mtime ==> mtime[ps[j]] < mtime[r.value]
    ensures NewestLast(ps, mtime, floor).None? <==>
      forall j :: 0 <= j < |ps| && ps[j] in mtime ==> floor.Some? && mtime[ps[j]] < floor.value
    decreases |ps|
  {
    if ps != [] {
      var n := |ps| - 1;
      var q := ps[..n];
      NewestLastIsNewest(q, mtime, floor);
      var prev := NewestLast(q, mtime, floor);
      var p := ps[n];
      assert forall j :: 0 <= j < n ==> ps[j] == q[j];
      var r := NewestLast(ps, mtime, floor);
      if !(p in mtime && (if prev.Some? then mtime[p] >= mtime[prev.value] else floor.None? || mtime[p] >= floor.value)) {
        if prev.Some? {
          var i :| 0 <= i < |q| && q[i] == prev.value && forall j :: i < j < |q| && q[j] in mtime ==> mtime[q[j]] < mtime[prev.value];
          assert ps[i] == prev.value;
          assert forall j :: i < j < |ps| && ps[j] in mtime ==> mtime[ps[j]] < mtime[prev.value];
        }
      }
    }
  }

  /** What follows the last `c` in `s` (all of `s` when there is none):
      `s.split(c)[-1]`. */
  function AfterLast(s: string, c: char): (r: string)
    ensures c !in r
    ensures |r| <= |s| && r == s[|s| - |r|..]
    ensures c !in s ==> r == s
    decreases |s|
  {
    if s == [] then []
    else if s[|s| - 1] == c then []
    else AfterLast(s[..|s| - 1], c) + [s[|s| - 1]]
  }

  /** Whatever precedes the last `c`, what follows it is returned whole. */
  lemma {:induction false} AfterLastSplit(prefix: string, c: char, suffix: string)
    requires c !in suffix
    ensures AfterLast(prefix + [c] + suffix, c) == suffix
    decreases |suffix|
  {
    var p := prefix + [c] + suffix;
    if suffix != [] {
      var n := |suffix| - 1;
      assert p[..|p| - 1] == prefix + [c] + suffix[..n];
      assert p[|p| - 1] == suffix[n];
      AfterLastSplit(prefix, c, suffix[..n]);
      assert suffix[..n] + [suffix[n]] == suffix;
    }
  }

  /** `Path.name`: what follows the last '/'. */
  function BaseName(p: string): (r: string)
    ensures '/' !in r
  {
    AfterLast(p, '/')
  }

  /** `str(Path.parent)` for a path without trailing or repeated slashes: what
      precedes the last '/' ("" when there is none). */
  function DirName(p: string): (r: string)
    ensures |r| <= |p| && r == p[..|r|]
    decreases |p|
  {
    if p == [] then []
    else if p[|p| - 1] == '/' then p[..|p| - 1]
    else DirName(p[..|p| - 1])
  }

  /** A path splits at its last '/' into its parent and its name. */
  lemma {:induction false} DirNameBaseName(dir: string, name: string)
    requires '/' !in name
    ensures DirName(dir + "/" + name) == dir
    ensures BaseName(dir + "/" + name) == name
    decreases |name|
  {
    var p := dir + "/" + name;
    AfterLastSplit(dir, '/', name);
    if name == [] {
      assert p[..|p| - 1] == dir;
    } else {
      var n := |name| - 1;
      assert p[..|p| - 1] == dir + "/" + name[..n];
      assert p[|p| - 1] == name[n];
      DirNameBaseName(dir, name[..n]);
    }
  }

  /** `min(hi, max(lo, x))` */
  function Clamp(lo: int, hi: int, x: int): (r: int)
    requires lo <= hi
    ensures lo <= r <= hi
    ensures lo <= x <= hi ==> r == x
    ensures x < lo ==> r == lo
    ensures x > hi ==> r == hi
  {
    if hi < (if lo < x then x else lo) then hi else (if lo < x then x else lo)
  }
}
