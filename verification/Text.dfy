/** Go's `strings.TrimSpace` on text, as the planner and the repair code use it. */
module Text {

  /** The Unicode White_Space property, which is what Go's `unicode.IsSpace` tests. */
  predicate IsSpace(c: char) {
    var n := c as int;
    || 9 <= n <= 13 || n == 32 || n == 0x85 || n == 0xA0 || n == 0x1680
    || 0x2000 <= n <= 0x200A || n == 0x2028 || n == 0x2029 || n == 0x202F || n == 0x205F || n == 0x3000
  }

  function TrimLeft(s: string): string {
    if s != "" && IsSpace(s[0]) then TrimLeft(s[1..]) else s
  }

  function TrimRight(s: string): string {
    if s != "" && IsSpace(s[|s| - 1]) then TrimRight(s[..|s| - 1]) else s
  }

  function Trim(s: string): string {
    TrimRight(TrimLeft(s))
  }

  /** Text that starts and ends with something other than white space, or is empty. */
  predicate Trimmed(s: string) {
    s == "" || (!IsSpace(s[0]) && !IsSpace(s[|s| - 1]))
  }

  lemma {:induction false} TrimLeftStartsAtText(s: string)
    ensures TrimLeft(s) == "" || !IsSpace(TrimLeft(s)[0])
  {
    if s != "" && IsSpace(s[0]) {
      TrimLeftStartsAtText(s[1..]);
    }
  }

  lemma {:induction false} TrimRightKeepsStart(s: string)
    ensures TrimRight(s) <= s
    ensures TrimRight(s) == "" || !IsSpace(TrimRight(s)[|TrimRight(s)| - 1])
    ensures s != "" && !IsSpace(s[0]) ==> TrimRight(s) != ""
  {
    if s != "" && IsSpace(s[|s| - 1]) {
      TrimRightKeepsStart(s[..|s| - 1]);
    }
  }

  lemma StartsVisible(s: string)
    requires s != "" && !IsSpace(s[0])
    ensures Trim(s) != ""
  {
    TrimRightKeepsStart(s);
  }

  lemma TrimTrimmed(s: string)
    requires Trimmed(s)
    ensures Trim(s) == s
  {
  }

  lemma TrimYieldsTrimmed(s: string)
    ensures Trimmed(Trim(s))
  {
    TrimLeftStartsAtText(s);
    TrimRightKeepsStart(TrimLeft(s));
  }

  /** Trimming cuts white space off both ends, and as much of it as there is. */
  lemma TrimIs(s: string) returns (a: nat, b: nat)
    ensures a <= b <= |s| && Trim(s) == s[a..b]
    ensures forall k :: 0 <= k < a || b <= k < |s| ==> IsSpace(s[k])
    ensures a < b ==> !IsSpace(s[a]) && !IsSpace(s[b - 1])
  {
    a := LeftIs(s);
    var rest := s[a..];
    var n := RightIs(rest);
    b := a + n;
    assert s[a..][..n] == s[a..b];
    TrimYieldsTrimmed(s);
    forall k | b <= k < |s| ensures IsSpace(s[k]) {
      assert s[k] == rest[k - a];
    }
  }

  lemma {:induction false} LeftIs(s: string) returns (a: nat)
    ensures a <= |s| && TrimLeft(s) == s[a..] && forall k :: 0 <= k < a ==> IsSpace(s[k])
  {
    a := 0;
    if s != "" && IsSpace(s[0]) {
      var n := LeftIs(s[1..]);
      a := n + 1;
      assert s[1..][n..] == s[a..];
      assert forall k :: 0 < k < a ==> s[k] == s[1..][k - 1];
    }
  }

  lemma {:induction false} RightIs(s: string) returns (b: nat)
    ensures b <= |s| && TrimRight(s) == s[..b] && forall k :: b <= k < |s| ==> IsSpace(s[k])
  {
    b := |s|;
    if s != "" && IsSpace(s[|s| - 1]) {
      b := RightIs(s[..|s| - 1]);
      assert s[..|s| - 1][..b] == s[..b];
      assert forall k :: b <= k < |s| - 1 ==> s[k] == s[..|s| - 1][k];
    }
  }

  lemma TrimIdempotent(s: string)
    ensures Trim(Trim(s)) == Trim(s)
  {
    TrimYieldsTrimmed(s);
    TrimTrimmed(Trim(s));
  }

  /** Text in front of `t` keeps `t`'s own front, so only trailing space is cut. */
  lemma {:induction false} TrimRightOfConcat(p: string, t: string)
    ensures TrimRight(p + t) == if TrimRight(t) == "" then TrimRight(p) else p + TrimRight(t)
    decreases |t|
  {
    if t == "" {
      assert p + t == p;
    } else if IsSpace(t[|t| - 1]) {
      assert (p + t)[..|p + t| - 1] == p + t[..|t| - 1];
      TrimRightOfConcat(p, t[..|t| - 1]);
    } else {
      assert (p + t)[|p + t| - 1] == t[|t| - 1];
    }
  }

  /** Trimming on the left and on the right can be done in either order. */
  lemma {:induction false} TrimCommutes(s: string)
    ensures TrimLeft(TrimRight(s)) == Trim(s)
    decreases |s|
  {
    if s != "" && IsSpace(s[0]) {
      TrimCommutes(s[1..]);
      TrimRightOfConcat(s[..1], s[1..]);
      assert s == s[..1] + s[1..];
      var rest := TrimRight(s[1..]);
      if rest == "" {
        assert TrimRight(s[..1]) == "" by { assert s[..1][..0] == ""; }
      } else {
        assert (s[..1] + rest)[1..] == rest;
      }
    } else {
      TrimRightKeepsStart(s);
    }
  }
}
