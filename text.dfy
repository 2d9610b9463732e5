/**
 * String helpers with the exact meaning JavaScript gives them: the `\s` class
 * (which is also the set `trim` and `trimEnd` strip), the line terminators a
 * multi-line `^` anchors after, `split("\n")` and `join("\n")`.
 */
module Text {

  /** JavaScript's `\s`: WhiteSpace and LineTerminator code points. */
  predicate IsWs(c: char) {
    || c == '\t' || c == '\n' || c == '\U{B}' || c == '\U{C}' || c == '\r' || c == ' '
    || c == '\U{A0}' || c == '\U{1680}' || ('\U{2000}' <= c <= '\U{200A}')
    || c == '\U{2028}' || c == '\U{2029}' || c == '\U{202F}' || c == '\U{205F}'
    || c == '\U{3000}' || c == '\U{FEFF}'
  }

  /** The characters after which `^` matches under the `m` flag, and which `.` refuses. */
  predicate IsLineTerminator(c: char) {
    c == '\n' || c == '\r' || c == '\U{2028}' || c == '\U{2029}'
  }

  lemma LineTerminatorIsWs(c: char)
    ensures IsLineTerminator(c) ==> IsWs(c)
  {
  }

  predicate AllWs(s: string) {
    forall i | 0 <= i < |s| :: IsWs(s[i])
  }

  /** `^` under the `m` flag: the start of the text or just after a line terminator. */
  predicate LineStart(s: string, i: nat) {
    i == 0 || (i <= |s| && IsLineTerminator(s[i - 1]))
  }

  /** `t` occurs in `s` starting at position `i`. */
  predicate OccursAt(s: string, t: string, i: nat) {
    i + |t| <= |s| && s[i..i + |t|] == t
  }

  /** `String.prototype.includes`. */
  predicate Contains(s: string, t: string) {
    exists i | 0 <= i <= |s| :: OccursAt(s, t, i)
  }

  /** Concatenation regroups. */
  lemma Assoc(x: string, y: string, z: string)
    ensures (x + y) + z == x + (y + z)
  {
  }

  /** `t` occurs in `a + t + b` just after `a`. */
  lemma OccursBetween(a: string, t: string, b: string)
    ensures OccursAt(a + t + b, t, |a|) && Contains(a + t + b, t)
  {
    assert (a + t + b)[|a|..|a| + |t|] == t;
    assert OccursAt(a + t + b, t, |a|);
  }

  /** An occurrence survives text appended after it. */
  lemma ContainsExtend(x: string, y: string, t: string)
    requires Contains(x, t)
    ensures Contains(x + y, t)
  {
    var i :| 0 <= i <= |x| && OccursAt(x, t, i);
    assert (x + y)[i..i + |t|] == x[i..i + |t|];
    assert OccursAt(x + y, t, i);
  }

  /** `t` occurs at the end of `x + t`. */
  lemma ContainsAtEnd(x: string, t: string)
    ensures Contains(x + t, t)
  {
    assert (x + t)[|x|..|x| + |t|] == t;
    assert OccursAt(x + t, t, |x|);
  }

  /** The end of the run of whitespace that starts at `i` (greedy `\s*`). */
  function SkipWs(s: string, i: nat): (j: nat)
    requires i <= |s|
    ensures i <= j <= |s|
    ensures forall k | i <= k < j :: IsWs(s[k])
    ensures j < |s| ==> !IsWs(s[j])
    decreases |s| - i
  {
    if i < |s| && IsWs(s[i]) then SkipWs(s, i + 1) else i
  }

  /** A run of whitespace from `i` to `j` is skipped; if it stops at `j`, `SkipWs` ends exactly there. */
  lemma {:induction false} SkipWsCovers(s: string, i: nat, j: nat)
    requires i <= j <= |s|
    requires forall k | i <= k < j :: IsWs(s[k])
    ensures j <= SkipWs(s, i)
    ensures (j == |s| || !IsWs(s[j])) ==> SkipWs(s, i) == j
    decreases j - i
  {
    if i < j {
      SkipWsCovers(s, i + 1, j);
    }
  }

  /** `String.prototype.trimEnd`. */
  function TrimEnd(s: string): (r: string)
    ensures r <= s
    ensures forall k | |r| <= k < |s| :: IsWs(s[k])
    ensures r == [] || !IsWs(r[|r| - 1])
  {
    if s != [] && IsWs(s[|s| - 1]) then TrimEnd(s[..|s| - 1]) else s
  }

  /** `String.prototype.trim`: a slice of `s` that neither starts nor ends with whitespace. */
  function Trim(s: string): (r: string)
    ensures SkipWs(s, 0) + |r| <= |s| && r == s[SkipWs(s, 0)..SkipWs(s, 0) + |r|]
    ensures r == [] || (!IsWs(r[0]) && !IsWs(r[|r| - 1]))
    ensures r == [] <==> AllWs(s)
    ensures AllWs(s[SkipWs(s, 0) + |r|..])
  {
    var a := SkipWs(s, 0);
    var r := TrimEnd(s[a..]);
    assert r == s[a..a + |r|];
    TailOfSliceAllWs(s, a, |r|);
    r
  }

  /** Whitespace at the end of `s[a..]` is whitespace at the end of `s`. */
  lemma TailOfSliceAllWs(s: string, a: nat, n: nat)
    requires a + n <= |s|
    requires forall k | n <= k < |s[a..]| :: IsWs(s[a..][k])
    ensures AllWs(s[a + n..])
  {
    var t := s[a + n..];
    forall k | 0 <= k < |t| ensures IsWs(t[k]) {
      assert t[k] == s[a..][n + k];
    }
  }

  /** `s.split("\n")`: always at least one piece, and no piece holds a newline. */
  function Split(s: string): (r: seq<string>)
    ensures |r| >= 1
    ensures forall k | 0 <= k < |r| :: '\n' !in r[k]
  {
    if s == [] then [""]
    else
      var rest := Split(s[1..]);
      if s[0] == '\n' then [""] + rest
      else [[s[0]] + rest[0]] + rest[1..]
  }

  /** A text without a newline is one piece. */
  lemma {:induction false} SplitOneLine(a: string)
    requires '\n' !in a
    ensures Split(a) == [a]
  {
    if a != [] {
      SplitOneLine(a[1..]);
      assert [a[0]] + a[1..] == a;
    }
  }

  /** A first line ended by a newline is the first piece; the rest splits on its own. */
  lemma {:induction false} SplitFirstLine(a: string, b: string)
    requires '\n' !in a
    ensures Split(a + "\n" + b) == [a] + Split(b)
  {
    var s := a + "\n" + b;
    if a == [] {
      assert s[1..] == b;
    } else {
      assert s[1..] == a[1..] + "\n" + b;
      SplitFirstLine(a[1..], b);
      assert [a[0]] + a[1..] == a;
    }
  }

  /** `lines.join("\n")`. */
  function Join(lines: seq<string>): string {
    if lines == [] then ""
    else if |lines| == 1 then lines[0]
    else lines[0] + "\n" + Join(lines[1..])
  }

  lemma {:induction false} JoinCons(x: string, line: string, rest: seq<string>)
    ensures Join([x + line] + rest) == x + Join([line] + rest)
  {
    var ls := [x + line] + rest;
    if rest == [] {
      assert ls == [x + line];
    } else {
      assert ls[1..] == rest;
      assert ([line] + rest)[1..] == rest;
    }
  }

  /** Joining the pieces of a split gives the text back. */
  lemma {:induction false} JoinSplit(s: string)
    ensures Join(Split(s)) == s
  {
    if s != [] {
      var rest := Split(s[1..]);
      JoinSplit(s[1..]);
      if s[0] == '\n' {
        assert ([""] + rest)[1..] == rest;
        assert Join([""] + rest) == "" + "\n" + Join(rest);
      } else {
        assert [rest[0]] + rest[1..] == rest;
        JoinCons([s[0]], rest[0], rest[1..]);
        assert [s[0]] + s[1..] == s;
      }
    }
  }

  /** Joining two non-empty runs of lines with one more newline joins the whole. */
  lemma {:induction false} JoinSplitAt(lines: seq<string>, k: nat)
    requires 0 < k < |lines|
    ensures Join(lines[..k]) + "\n" + Join(lines[k..]) == Join(lines)
    decreases k
  {
    if k == 1 {
      assert lines[..1] == [lines[0]];
      assert lines[k..] == lines[1..];
    } else {
      var tail := lines[1..];
      JoinSplitAt(tail, k - 1);
      assert tail[..k - 1] == lines[1..k];
      assert tail[k - 1..] == lines[k..];
      assert lines[..k][1..] == lines[1..k];
      assert Join(lines[..k]) == lines[0] + "\n" + Join(lines[1..k]);
    }
  }

  /** `Join(lines)` begins with its first line. */
  lemma {:induction false} JoinStartsWithFirst(lines: seq<string>)
    requires |lines| >= 1
    ensures lines[0] <= Join(lines)
  {
    if |lines| > 1 {
      assert Join(lines) == lines[0] + ("\n" + Join(lines[1..]));
    }
  }

  /**
   * Line `k` of `lines` starts a line of `Join(lines)`: at the position just
   * after the newline that ends line `k - 1`.
   */
  lemma {:induction false} LineOfJoin(lines: seq<string>, k: nat) returns (p: nat)
    requires 0 < k < |lines|
    ensures p == |Join(lines[..k])| + 1
    ensures p <= |Join(lines)| && Join(lines)[p - 1] == '\n'
    ensures lines[k] <= Join(lines)[p..]
  {
    p := |Join(lines[..k])| + 1;
    JoinSplitAt(lines, k);
    var whole := Join(lines);
    var before, after := Join(lines[..k]), Join(lines[k..]);
    assert whole == before + "\n" + after;
    assert whole[p..] == after;
    assert whole[p - 1] == '\n';
    assert lines[k..][0] == lines[k];
    JoinStartsWithFirst(lines[k..]);
  }
}
