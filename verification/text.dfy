/** The JavaScript string and array primitives the page relies on, over Dafny strings:
    String.prototype.trim, includes, endsWith and Array.prototype.join. */
module Text {

  /** The code points String.prototype.trim strips: ECMAScript WhiteSpace and LineTerminator. */
  predicate IsSpace(c: char) {
    || c == '\t' || c == '\n' || c == '\U{000B}' || c == '\U{000C}' || c == '\r' || c == ' '
    || c == '\U{00A0}' || c == '\U{1680}' || ('\U{2000}' <= c <= '\U{200A}')
    || c == '\U{2028}' || c == '\U{2029}' || c == '\U{202F}' || c == '\U{205F}'
    || c == '\U{3000}' || c == '\U{FEFF}'
  }

  predicate AllSpace(s: string) {
    forall i | 0 <= i < |s| :: IsSpace(s[i])
  }

  /** Neither end of `s` is whitespace: what trim leaves behind. */
  predicate IsTrimmed(s: string) {
    |s| == 0 || (!IsSpace(s[0]) && !IsSpace(s[|s| - 1]))
  }

  /** Drops the maximal whitespace prefix. */
  function TrimStart(s: string): (r: string)
    ensures |r| <= |s| && r == s[|s| - |r|..]
    ensures AllSpace(s[..|s| - |r|])
    ensures |r| == 0 || !IsSpace(r[0])
  {
    if |s| > 0 && IsSpace(s[0]) then
      var r := TrimStart(s[1..]);
      assert s[..|s| - |r|] == [s[0]] + s[1..][..|s| - 1 - |r|];
      r
    else
      s
  }

  /** Drops the maximal whitespace suffix. */
  function TrimEnd(s: string): (r: string)
    ensures |r| <= |s| && r == s[..|r|]
    ensures AllSpace(s[|r|..])
    ensures |r| == 0 || !IsSpace(r[|r| - 1])
  {
    if |s| > 0 && IsSpace(s[|s| - 1]) then
      var r := TrimEnd(s[..|s| - 1]);
      assert s[|r|..] == s[..|s| - 1][|r|..] + [s[|s| - 1]];
      r
    else
      s
  }

  /** `r` is what is left of `s` after removing the whitespace run `s[..i]` and the
      whitespace run after `r`. */
  predicate PeeledAt(s: string, r: string, i: int) {
    0 <= i <= |s| - |r| && r == s[i..i + |r|] && AllSpace(s[..i]) && AllSpace(s[i + |r|..])
  }

  /** String.prototype.trim. */
  function Trim(s: string): (r: string)
    ensures IsTrimmed(r)
  {
    TrimEndKeepsHead(TrimStart(s));
    TrimEnd(TrimStart(s))
  }

  /** Trim leaves the infix of `s` between a whitespace prefix and a whitespace suffix, and it
      is empty exactly when `s` is all whitespace. */
  lemma TrimSpec(s: string)
    ensures |Trim(s)| == 0 <==> AllSpace(s)
    ensures exists i :: PeeledAt(s, Trim(s), i)
  {
    var t := TrimStart(s);
    var r := TrimEnd(t);
    assert Trim(s) == r;
    TrimEndKeepsHead(t);
    TrimShape(s, t, r);
    assert PeeledAt(s, r, |s| - |t|);
  }

  /** A string that starts with a non-space keeps that character under TrimEnd. */
  lemma TrimEndKeepsHead(t: string)
    requires |t| == 0 || !IsSpace(t[0])
    ensures var r := TrimEnd(t); |t| > 0 ==> |r| > 0 && r[0] == t[0]
  {
  }

  /** Peeling a whitespace-free-headed `t` off the end of `s`, then a whitespace run off the
      end of `t`, leaves a trimmed infix of `s`. */
  lemma TrimShape(s: string, t: string, r: string)
    requires |t| <= |s| && t == s[|s| - |t|..] && AllSpace(s[..|s| - |t|])
    requires |t| == 0 || !IsSpace(t[0])
    requires |r| <= |t| && r == t[..|r|] && AllSpace(t[|r|..])
    requires |r| == 0 || !IsSpace(r[|r| - 1])
    requires |t| > 0 ==> |r| > 0 && r[0] == t[0]
    ensures IsTrimmed(r)
    ensures |r| == 0 <==> AllSpace(s)
    ensures PeeledAt(s, r, |s| - |t|)
  {
    var i := |s| - |t|;
    if |t| == 0 {
      assert s[..i] == s;
    } else {
      assert s[i] == t[0];
    }
    assert s[i + |r|..] == t[|r|..];
    assert s[i..i + |r|] == t[..|r|];
  }

  /** Trimming is idempotent: a trimmed string is its own trim. */
  lemma {:induction false} TrimOfTrimmed(s: string)
    requires IsTrimmed(s)
    ensures Trim(s) == s
  {
    KeepsUnspacedHead(s);
    KeepsUnspacedTail(s);
  }

  lemma KeepsUnspacedHead(s: string)
    requires |s| == 0 || !IsSpace(s[0])
    ensures TrimStart(s) == s
  {
  }

  lemma KeepsUnspacedTail(s: string)
    requires |s| == 0 || !IsSpace(s[|s| - 1])
    ensures TrimEnd(s) == s
  {
  }

  predicate StartsWith(s: string, prefix: string) {
    |prefix| <= |s| && s[..|prefix|] == prefix
  }

  /** String.prototype.endsWith. */
  predicate EndsWith(s: string, suffix: string) {
    |suffix| <= |s| && s[|s| - |suffix|..] == suffix
  }

  lemma StartsWithConcat(a: string, b: string)
    ensures StartsWith(a + b, a)
  {
    assert (a + b)[..|a|] == a;
  }

  lemma StartsWithExtend(s: string, prefix: string, more: string)
    requires StartsWith(s, prefix)
    ensures StartsWith(s + more, prefix)
  {
    assert (s + more)[..|prefix|] == s[..|prefix|];
  }

  lemma EndsWithConcat(a: string, b: string)
    ensures EndsWith(a + b, b)
  {
    assert (a + b)[|a|..] == b;
  }

  /** String.prototype.includes: `part` occurs somewhere in `s`. */
  predicate Includes(s: string, part: string)
    decreases |s|
  {
    StartsWith(s, part) || (|s| > 0 && Includes(s[1..], part))
  }

  /** `part` sits in `s` at position `i`. */
  predicate OccursAt(s: string, part: string, i: int) {
    0 <= i <= |s| - |part| && s[i..i + |part|] == part
  }

  /** Includes agrees with the positional definition of a substring occurrence. */
  lemma IncludesAt(s: string, part: string)
    ensures Includes(s, part) <==> exists i :: OccursAt(s, part, i)
  {
    if Includes(s, part) {
      var i := IncludesWitness(s, part);
    }
    forall i | OccursAt(s, part, i) ensures Includes(s, part) {
      OccursIncludes(s, part, i);
    }
  }

  /** A position at which an included string occurs. */
  lemma {:induction false} IncludesWitness(s: string, part: string) returns (i: int)
    requires Includes(s, part)
    ensures OccursAt(s, part, i)
    decreases |s|
  {
    if StartsWith(s, part) {
      i := 0;
    } else {
      var j := IncludesWitness(s[1..], part);
      SliceOfTail(s, j + 1, j + 1 + |part|);
      i := j + 1;
    }
  }

  /** An occurrence at any position makes the string include the part. */
  lemma {:induction false} OccursIncludes(s: string, part: string, i: int)
    requires OccursAt(s, part, i)
    ensures Includes(s, part)
    decreases i
  {
    if i > 0 {
      SliceOfTail(s, i, i + |part|);
      OccursIncludes(s[1..], part, i - 1);
    }
  }

  /** A slice of the tail of `s` is the slice of `s` one position further on. */
  lemma SliceOfTail(s: string, i: int, j: int)
    requires 1 <= i <= j <= |s|
    ensures s[1..][i - 1..j - 1] == s[i..j]
  {
    forall k | 0 <= k < j - i ensures s[1..][i - 1..j - 1][k] == s[i..j][k] {
      assert s[1..][i - 1 + k] == s[i + k];
    }
  }

  /** A string includes each of its suffixes. */
  lemma {:induction false} IncludesSuffix(a: string, b: string)
    ensures Includes(a + b, b)
  {
    if |a| == 0 {
      assert a + b == b;
      assert StartsWith(b, b);
    } else {
      assert (a + b)[1..] == a[1..] + b;
      IncludesSuffix(a[1..], b);
    }
  }

  /** Array.prototype.join: the items with `sep` between consecutive ones. */
  function Join(xs: seq<string>, sep: string): string
  {
    if |xs| == 0 then ""
    else if |xs| == 1 then xs[0]
    else xs[0] + sep + Join(xs[1..], sep)
  }

  /** With a non-empty separator, the join is empty exactly when there is nothing to join
      but possibly one empty item. */
  lemma JoinIsEmpty(xs: seq<string>, sep: string)
    requires sep != ""
    ensures Join(xs, sep) == "" <==> |xs| == 0 || (|xs| == 1 && xs[0] == "")
  {
  }

  /** The join of a five-item list, written out. */
  lemma Join5(a: string, b: string, c: string, d: string, e: string, sep: string)
    ensures Join([a, b, c, d, e], sep) == a + sep + b + sep + c + sep + d + sep + e
  {
    assert [d, e][1..] == [e];
    assert Join([d, e], sep) == d + sep + e;
    assert [c, d, e][1..] == [d, e];
    assert Join([c, d, e], sep) == c + sep + (d + sep + e);
    assert [b, c, d, e][1..] == [c, d, e];
    assert Join([b, c, d, e], sep) == b + sep + (c + sep + (d + sep + e));
    assert [a, b, c, d, e][1..] == [b, c, d, e];
  }
}
