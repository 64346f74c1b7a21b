/**
 * The Python string operations the crawler and the importer rely on, stated over
 * `seq<char>`: `find`, slicing with clamped and negative bounds, `replace`,
 * `split(sep)[0]`, `rstrip`/`strip`, `startswith` and `join`.
 */
module Strings {

  /** `p` occurs in `s` starting at index `i`. */
  predicate OccursAt(s: string, p: string, i: int)
  {
    0 <= i && i + |p| <= |s| && s[i..i + |p|] == p
  }

  /** Python's `p in s`. */
  predicate Contains(s: string, p: string)
  {
    exists i :: 0 <= i <= |s| - |p| && OccursAt(s, p, i)
  }

  /** Python's `s.startswith(p)`. */
  predicate StartsWith(s: string, p: string)
  {
    |p| <= |s| && s[..|p|] == p
  }

  /** An occurrence in `a` is an occurrence in `a + b`. */
  lemma OccursInExtension(a: string, b: string, p: string, i: int)
    requires OccursAt(a, p, i)
    ensures OccursAt(a + b, p, i)
  {
    assert (a + b)[i..i + |p|] == a[i..i + |p|];
  }

  /** One mismatching character rules out an occurrence. */
  lemma MismatchAt(s: string, p: string, k: int, j: int)
    requires 0 <= j < |p| && 0 <= k + j < |s| && s[k + j] != p[j]
    ensures !OccursAt(s, p, k)
  {
    if 0 <= k && k + |p| <= |s| {
      assert s[k..k + |p|][j] == s[k + j];
    }
  }

  /** A candidate that fits inside `a` is no occurrence in `a + b` when `a` has none. */
  lemma AbsentFromPrefix(a: string, b: string, p: string, k: int)
    requires !Contains(a, p) && 0 <= k && k + |p| <= |a|
    ensures !OccursAt(a + b, p, k)
  {
    assert !OccursAt(a, p, k);
    assert (a + b)[k..k + |p|] == a[k..k + |p|];
  }

  /** An occurrence with none before it is what `Find` returns. */
  lemma FindIs(s: string, p: string, a: int)
    requires OccursAt(s, p, a)
    requires forall k :: 0 <= k < a ==> !OccursAt(s, p, k)
    ensures Find(s, p) == a
  {
    assert Contains(s, p);
  }

  /** Gluing a text without `p` to a text that `p`'s last character does not occur in creates no `p`. */
  lemma NoStraddle(a: string, q: string, p: string)
    requires |p| > 0 && !Contains(a, p) && p[|p| - 1] !in q
    ensures !Contains(a + q, p)
  {
    var s := a + q;
    forall k | 0 <= k <= |s| - |p|
      ensures !OccursAt(s, p, k)
    {
      if k + |p| <= |a| {
        AbsentFromPrefix(a, q, p, k);
      } else {
        assert s[k + |p| - 1] == q[k + |p| - 1 - |a|];
        MismatchAt(s, p, k, |p| - 1);
      }
    }
  }

  /**
   * In `a + p + t`, no occurrence of `p` starts inside `a` when `a` has none and `p`'s first
   * character does not recur in `p`.
   */
  lemma NoOccurrenceBefore(a: string, p: string, t: string)
    requires |p| > 0 && !Contains(a, p)
    requires forall j :: 0 < j < |p| ==> p[j] != p[0]
    ensures forall k :: 0 <= k < |a| ==> !OccursAt(a + p + t, p, k)
  {
    var s := a + p + t;
    forall k | 0 <= k < |a|
      ensures !OccursAt(s, p, k)
    {
      if k + |p| <= |a| {
        AbsentFromPrefix(a, p + t, p, k);
        assert s == a + (p + t);
      } else {
        assert s[|a|] == p[0];
        MismatchAt(s, p, k, |a| - k);
      }
    }
  }

  /** Under the same conditions, the first occurrence of `p` in `a + p + t` is right after `a`. */
  lemma FindAtJoin(a: string, p: string, t: string)
    requires |p| > 0 && !Contains(a, p)
    requires forall j :: 0 < j < |p| ==> p[j] != p[0]
    ensures Find(a + p + t, p) == |a|
  {
    var s := a + p + t;
    NoOccurrenceBefore(a, p, t);
    assert s[|a|..|a| + |p|] == p;
    FindIs(s, p, |a|);
  }

  /** First occurrence of `p` at or after `from`, or -1. */
  function FindFrom(s: string, p: string, from: nat): (r: int)
    ensures r == -1 || (from <= r && OccursAt(s, p, r))
    ensures forall i :: from <= i && (r == -1 || i < r) ==> !OccursAt(s, p, i)
    decreases |s| - from
  {
    if from + |p| > |s| then -1
    else if s[from..from + |p|] == p then from
    else FindFrom(s, p, from + 1)
  }

  /** Python's `s.find(p)`: the index of the first occurrence of `p`, or -1 when there is none. */
  function Find(s: string, p: string): (r: int)
    ensures r == -1 <==> !Contains(s, p)
    ensures r >= 0 ==> OccursAt(s, p, r) && forall i :: 0 <= i < r ==> !OccursAt(s, p, i)
  {
    FindFrom(s, p, 0)
  }

  /** Python's normalisation of a slice bound: negative bounds count from the end, then clamp. */
  function SliceBound(i: int, n: nat): (r: nat)
    ensures r <= n
    ensures 0 <= i <= n ==> r == i
    ensures i < 0 && 0 <= n + i ==> r == n + i
    ensures i > n ==> r == n
    ensures n + i < 0 ==> r == 0
  {
    if i < 0 then (if n + i < 0 then 0 else n + i)
    else if i > n then n
    else i
  }

  /** Python's `s[a:b]`. */
  function Slice(s: string, a: int, b: int): (r: string)
    ensures |r| <= |s|
    ensures 0 <= a <= b <= |s| ==> r == s[a..b]
    ensures b < a && 0 <= b ==> r == []
    ensures 0 <= a && b < 0 && a <= |s| + b ==> r == s[a..|s| + b]
  {
    var lo := SliceBound(a, |s|);
    var hi := SliceBound(b, |s|);
    if lo < hi then s[lo..hi] else []
  }

  /** Python's `s[1:]`: everything after the first character, empty for the empty string. */
  function DropFirst(s: string): (r: string)
    ensures |s| == 0 ==> r == []
    ensures |s| > 0 ==> s == [s[0]] + r
  {
    Slice(s, 1, |s|)
  }

  /**
   * Python's `s.replace(pat, rep)` for a non-empty pattern: scans left to right and
   * replaces every non-overlapping occurrence.
   */
  function ReplaceAll(s: string, pat: string, rep: string): string
    requires |pat| > 0
    decreases |s|
  {
    if |s| < |pat| then s
    else if s[..|pat|] == pat then rep + ReplaceAll(s[|pat|..], pat, rep)
    else [s[0]] + ReplaceAll(s[1..], pat, rep)
  }

  /** Replacement leaves a prefix without occurrences untouched. */
  lemma {:induction false} ReplaceAllKeepsPrefix(s: string, pat: string, rep: string, j: nat)
    requires |pat| > 0 && j <= |s|
    requires forall i :: 0 <= i < j ==> !OccursAt(s, pat, i)
    ensures ReplaceAll(s, pat, rep) == s[..j] + ReplaceAll(s[j..], pat, rep)
    decreases j
  {
    if j > 0 {
      assert !OccursAt(s, pat, 0);
      if |s| < |pat| {
        assert s[j..] == [] || |s[j..]| < |pat|;
        assert s[..j] + s[j..] == s;
      } else {
        assert s[..|pat|] != pat;
        var t := s[1..];
        forall i | 0 <= i < j - 1
          ensures !OccursAt(t, pat, i)
        {
          if OccursAt(t, pat, i) {
            assert t[i..i + |pat|] == s[i + 1..i + 1 + |pat|];
            assert OccursAt(s, pat, i + 1);
          }
        }
        ReplaceAllKeepsPrefix(t, pat, rep, j - 1);
        assert t[j - 1..] == s[j..];
        assert [s[0]] + t[..j - 1] == s[..j];
      }
    }
  }

  /** Without an occurrence of the pattern, replacement is the identity. */
  lemma ReplaceAllAbsent(s: string, pat: string, rep: string)
    requires |pat| > 0 && !Contains(s, pat)
    ensures ReplaceAll(s, pat, rep) == s
  {
    assert forall i :: 0 <= i < |s| ==> !OccursAt(s, pat, i);
    ReplaceAllKeepsPrefix(s, pat, rep, |s|);
    assert s[..|s|] == s;
  }

  /** Python's `s.split(sep)[0]`: the text before the first occurrence of `sep`, or all of `s`. */
  function SplitHead(s: string, sep: string): (r: string)
    requires |sep| > 0
    ensures r <= s
    ensures !Contains(r, sep)
    ensures Contains(s, sep) ==> OccursAt(s, sep, |r|)
    ensures forall k :: 0 <= k < |r| ==> !OccursAt(s, sep, k)
    ensures !Contains(s, sep) ==> r == s
  {
    var i := Find(s, sep);
    if i < 0 then s
    else
      var r := s[..i];
      assert s == r + s[i..];
      assert !Contains(r, sep) by {
        forall k | 0 <= k <= |r| - |sep|
          ensures !OccursAt(r, sep, k)
        {
          if OccursAt(r, sep, k) {
            OccursInExtension(r, s[i..], sep, k);
          }
        }
      }
      r
  }

  /** Removing a leading `p` from `p + t`, when `t` has no `p`, leaves `t`. */
  lemma ReplaceAllLeading(p: string, t: string)
    requires |p| > 0 && !Contains(t, p)
    ensures ReplaceAll(p + t, p, "") == t
  {
    var s := p + t;
    assert s[..|p|] == p && s[|p|..] == t;
    ReplaceAllAbsent(t, p, "");
  }

  /** Removing a trailing `p` from `a + p`, when `a` has no `p` and `p`'s first character does not recur in it, leaves `a`. */
  lemma ReplaceAllTrailing(a: string, p: string)
    requires |p| > 0 && !Contains(a, p)
    requires forall j :: 0 < j < |p| ==> p[j] != p[0]
    ensures ReplaceAll(a + p, p, "") == a
  {
    var s := a + p;
    NoOccurrenceBefore(a, p, "");
    assert a + p + "" == s;
    ReplaceAllKeepsPrefix(s, p, "", |a|);
    assert s[..|a|] == a && s[|a|..] == p;
    assert p[..|p|] == p && p[|p|..] == [];
  }

  /** Under the conditions of `FindAtJoin`, `(a + p + t).split(p)[0]` is `a`. */
  lemma SplitHeadAtJoin(a: string, p: string, t: string)
    requires |p| > 0 && !Contains(a, p)
    requires forall j :: 0 < j < |p| ==> p[j] != p[0]
    ensures SplitHead(a + p + t, p) == a
  {
    FindAtJoin(a, p, t);
    assert (a + p + t)[..|a|] == a;
  }

  /** Python's `str.isspace` for one character: the Unicode whitespace set. */
  predicate IsSpace(c: char)
  {
    || ('\t' <= c <= '\r')
    || ('\U{1C}' <= c <= ' ')
    || c == '\U{85}' || c == '\U{A0}' || c == '\U{1680}'
    || ('\U{2000}' <= c <= '\U{200A}')
    || c == '\U{2028}' || c == '\U{2029}' || c == '\U{202F}' || c == '\U{205F}' || c == '\U{3000}'
  }

  predicate AllSpace(s: string)
  {
    forall i :: 0 <= i < |s| ==> IsSpace(s[i])
  }

  /** Python's `s.rstrip()`: drops trailing whitespace. */
  function RStrip(s: string): string
    decreases |s|
  {
    if |s| > 0 && IsSpace(s[|s| - 1]) then RStrip(s[..|s| - 1]) else s
  }

  /** `rstrip` keeps a prefix that ends in a non-space, and everything it drops is whitespace. */
  lemma {:induction false} RStripSpec(s: string)
    ensures RStrip(s) <= s
    ensures RStrip(s) == [] || !IsSpace(RStrip(s)[|RStrip(s)| - 1])
    ensures forall i :: |RStrip(s)| <= i < |s| ==> IsSpace(s[i])
    decreases |s|
  {
    if |s| > 0 && IsSpace(s[|s| - 1]) {
      var t := s[..|s| - 1];
      RStripSpec(t);
      assert RStrip(s) == RStrip(t);
      forall i | |RStrip(s)| <= i < |s|
        ensures IsSpace(s[i])
      {
        if i < |t| {
          assert s[i] == t[i];
        }
      }
    }
  }

  /** Python's `s.lstrip()`: drops leading whitespace. */
  function LStrip(s: string): string
    decreases |s|
  {
    if |s| > 0 && IsSpace(s[0]) then LStrip(s[1..]) else s
  }

  /** `lstrip` keeps a suffix that starts with a non-space, and everything it drops is whitespace. */
  lemma {:induction false} LStripSpec(s: string)
    ensures |LStrip(s)| <= |s| && LStrip(s) == s[|s| - |LStrip(s)|..]
    ensures LStrip(s) == [] || !IsSpace(LStrip(s)[0])
    ensures forall i :: 0 <= i < |s| - |LStrip(s)| ==> IsSpace(s[i])
    decreases |s|
  {
    if |s| > 0 && IsSpace(s[0]) {
      var t := s[1..];
      LStripSpec(t);
      assert LStrip(s) == LStrip(t);
      assert t[|t| - |LStrip(t)|..] == s[|s| - |LStrip(s)|..];
      forall i | 0 <= i < |s| - |LStrip(s)|
        ensures IsSpace(s[i])
      {
        if i > 0 {
          assert s[i] == t[i - 1];
        }
      }
    }
  }

  /** Python's `s.strip()`. */
  function Strip(s: string): string
  {
    LStrip(RStrip(s))
  }

  /** `strip` leaves nothing exactly for all-whitespace text, and leaves text with non-space ends alone. */
  lemma StripSpec(s: string)
    ensures Strip(s) == [] <==> AllSpace(s)
    ensures |s| > 0 && !IsSpace(s[0]) && !IsSpace(s[|s| - 1]) ==> Strip(s) == s
  {
    var t := RStrip(s);
    var r := LStrip(t);
    RStripSpec(s);
    LStripSpec(t);
    assert r == [] ==> t == [];
    assert r != [] ==> !AllSpace(s) by {
      if r != [] {
        var k := |t| - |r|;
        assert r[0] == t[k] == s[k];
        assert !IsSpace(s[k]);
      }
    }
    if |s| > 0 && !IsSpace(s[0]) && !IsSpace(s[|s| - 1]) {
      assert t == s;
      assert r == t;
    }
  }

  /** Python's `sep.join(ws)`. */
  function Join(sep: string, ws: seq<string>): string
    decreases |ws|
  {
    if |ws| == 0 then ""
    else if |ws| == 1 then ws[0]
    else ws[0] + sep + Join(sep, ws[1..])
  }

  /** Where piece `i` of `Join(sep, ws)` starts: the pieces before it, each followed by `sep`. */
  function JoinOffset(sep: string, ws: seq<string>, i: nat): nat
    requires i <= |ws|
    decreases i
  {
    if i == 0 then 0 else |ws[0]| + |sep| + JoinOffset(sep, ws[1..], i - 1)
  }

  /** The next piece starts right after this piece and its separator, so offsets are running sums. */
  lemma {:induction false} JoinOffsetNext(sep: string, ws: seq<string>, i: nat)
    requires i + 1 <= |ws|
    ensures JoinOffset(sep, ws, i + 1) == JoinOffset(sep, ws, i) + |ws[i]| + |sep|
    decreases i
  {
    if i > 0 {
      JoinOffsetNext(sep, ws[1..], i - 1);
      assert ws[1..][i - 1] == ws[i];
    }
  }

  /** A slice that lies inside the right operand of a concatenation. */
  lemma SliceOfRight(a: string, b: string, x: nat, y: nat)
    requires x <= y <= |b|
    ensures (a + b)[|a| + x..|a| + y] == b[x..y]
  {
    assert forall k :: 0 <= k < y - x ==> (a + b)[|a| + x..|a| + y][k] == b[x..y][k];
  }

  /** A join of two or more pieces is the first piece, the separator, and the join of the rest. */
  lemma JoinFront(sep: string, ws: seq<string>)
    requires |ws| > 1
    ensures Join(sep, ws) == (ws[0] + sep) + Join(sep, ws[1..])
  {
  }

  /**
   * The layout of a join, whatever the pieces hold: piece `i` sits at `JoinOffset(sep, ws, i)`,
   * exactly one `sep` follows every piece but the last, and the last piece ends the text.
   */
  lemma {:induction false} JoinLayout(sep: string, ws: seq<string>, i: nat)
    requires i < |ws|
    ensures var j := Join(sep, ws); var o := JoinOffset(sep, ws, i);
      && o + |ws[i]| <= |j|
      && j[o..o + |ws[i]|] == ws[i]
      && (i + 1 < |ws| ==> o + |ws[i]| + |sep| <= |j| && j[o + |ws[i]|..o + |ws[i]| + |sep|] == sep)
      && (i + 1 == |ws| ==> o + |ws[i]| == |j|)
    decreases i
  {
    if |ws| == 1 {
      assert Join(sep, ws) == ws[0];
    } else {
      var head := ws[0] + sep;
      var rest := Join(sep, ws[1..]);
      JoinFront(sep, ws);
      if i == 0 {
        assert (head + rest)[..|ws[0]|] == ws[0];
        assert (head + rest)[|ws[0]|..|head|] == sep;
      } else {
        var w := ws[i];
        var o' := JoinOffset(sep, ws[1..], i - 1);
        assert ws[1..][i - 1] == w;
        assert JoinOffset(sep, ws, i) == |head| + o';
        JoinLayout(sep, ws[1..], i - 1);
        SliceOfRight(head, rest, o', o' + |w|);
        if i + 1 < |ws| {
          SliceOfRight(head, rest, o' + |w|, o' + |w| + |sep|);
        }
      }
    }
  }

  /** Python's `s.split(c)` for a single-character separator. */
  function SplitOn(s: string, c: char): (r: seq<string>)
    ensures |r| > 0
    decreases |s|
  {
    if |s| == 0 then [""]
    else
      var rest := SplitOn(s[1..], c);
      if s[0] == c then [""] + rest
      else [[s[0]] + rest[0]] + rest[1..]
  }

  lemma {:induction false} SplitOnPiece(w: string, c: char, t: string)
    requires c !in w
    ensures SplitOn(w + [c] + t, c) == [w] + SplitOn(t, c)
    decreases |w|
  {
    if |w| == 0 {
      assert w + [c] + t == [c] + t;
      assert ([c] + t)[1..] == t;
    } else {
      var s := w + [c] + t;
      assert s[0] == w[0] && s[1..] == w[1..] + [c] + t;
      SplitOnPiece(w[1..], c, t);
      assert [w[0]] + w[1..] == w;
    }
  }

  lemma {:induction false} SplitOnPlain(w: string, c: char)
    requires c !in w
    ensures SplitOn(w, c) == [w]
    decreases |w|
  {
    if |w| > 0 {
      SplitOnPlain(w[1..], c);
      assert [w[0]] + w[1..] == w;
    }
  }

  /** Splitting a join at the separator gives the pieces back, when no piece holds the separator. */
  lemma {:induction false} SplitJoin(ws: seq<string>, c: char)
    requires |ws| > 0
    requires forall i :: 0 <= i < |ws| ==> c !in ws[i]
    ensures SplitOn(Join([c], ws), c) == ws
    decreases |ws|
  {
    if |ws| == 1 {
      SplitOnPlain(ws[0], c);
    } else {
      SplitJoin(ws[1..], c);
      SplitOnPiece(ws[0], c, Join([c], ws[1..]));
      assert [ws[0]] + ws[1..] == ws;
    }
  }
}
