/** The wildcard matcher: one pass over a NUL-terminated subject and pattern, going back to the latest `%` only. */
module Glob {
  import opened CText

  const PERCENT: Byte := 37

  // ---- What a match is ----

  predicate IsStar(c: Byte) {
    c as char == '%'
  }

  function Stars(p: Text): nat {
    if p == [] then 0 else (if IsStar(p[0]) then 1 else 0) + Stars(p[1..])
  }

  // The pattern with each % replaced by the next part.
  function Fill(p: Text, parts: seq<Text>): Text
    requires |parts| == Stars(p)
  {
    if p == [] then []
    else if IsStar(p[0]) then parts[0] + Fill(p[1..], parts[1..])
    else [p[0]] + Fill(p[1..], parts)
  }

  // Some choice of substrings for the % signs makes the whole subject.
  ghost predicate Matches(s: Text, p: Text) {
    exists parts: seq<Text> :: |parts| == Stars(p) && Fill(p, parts) == s
  }

  // The same, one pattern character at a time.
  ghost predicate Glob(s: Text, p: Text)
    decreases |p|
  {
    if p == [] then s == []
    else if p[0] == PERCENT then exists k :: 0 <= k <= |s| && Glob(s[k..], p[1..])
    else s != [] && s[0] == p[0] && Glob(s[1..], p[1..])
  }

  lemma {:induction false} GlobFills(s: Text, p: Text) returns (parts: seq<Text>)
    requires Glob(s, p)
    ensures |parts| == Stars(p) && Fill(p, parts) == s
    decreases |p|
  {
    if p == [] {
      parts := [];
    } else if p[0] == PERCENT {
      var k :| 0 <= k <= |s| && Glob(s[k..], p[1..]);
      var rest := GlobFills(s[k..], p[1..]);
      parts := [s[..k]] + rest;
      assert parts[1..] == rest && s == s[..k] + s[k..];
    } else {
      parts := GlobFills(s[1..], p[1..]);
      assert s == [s[0]] + s[1..];
    }
  }

  lemma {:induction false} FillGlobs(p: Text, parts: seq<Text>)
    requires |parts| == Stars(p)
    ensures Glob(Fill(p, parts), p)
    decreases |p|
  {
    if p == [] {
    } else if p[0] == PERCENT {
      FillGlobs(p[1..], parts[1..]);
      var s := Fill(p, parts);
      assert s[|parts[0]|..] == Fill(p[1..], parts[1..]);
    } else {
      FillGlobs(p[1..], parts);
      assert Fill(p, parts)[1..] == Fill(p[1..], parts);
    }
  }

  lemma GlobIsMatch(s: Text, p: Text)
    ensures Glob(s, p) <==> Matches(s, p)
  {
    if Glob(s, p) {
      var parts := GlobFills(s, p);
    }
    if parts: seq<Text> :| |parts| == Stars(p) && Fill(p, parts) == s {
      FillGlobs(p, parts);
    }
  }

  // ---- Why going back to the latest % is enough ----

  predicate Literal(p: Text) {
    forall k :: 0 <= k < |p| ==> p[k] != PERCENT
  }

  // A literal piece of pattern has to be there character by character.
  lemma {:induction false} LiteralFirst(s: Text, lit: Text, p: Text)
    requires Literal(lit)
    ensures Glob(s, lit + p) <==> lit <= s && Glob(s[|lit|..], p)
    decreases |lit|
  {
    if lit == [] {
      assert lit + p == p && s[0..] == s;
    } else {
      var q := lit + p;
      assert q[0] == lit[0] && q[1..] == lit[1..] + p;
      if s != [] {
        LiteralFirst(s[1..], lit[1..], p);
        if lit <= s {
          assert lit[1..] <= s[1..] && s[1..][|lit[1..]|..] == s[|lit|..];
        }
        if s[0] == lit[0] && lit[1..] <= s[1..] {
          assert lit == [lit[0]] + lit[1..] && s == [s[0]] + s[1..];
          assert s[1..][|lit[1..]|..] == s[|lit|..];
        }
      }
    }
  }

  // A % may as well begin earlier.
  lemma StarEarlier(s: Text, u: nat, p: Text)
    requires u <= |s| && p != [] && p[0] == PERCENT && Glob(s[u..], p)
    ensures Glob(s, p)
  {
    var k :| 0 <= k <= |s[u..]| && Glob(s[u..][k..], p[1..]);
    assert s[u..][k..] == s[u + k..];
  }

  // s is what is left after the latest %, which q follows; lit is what has been matched since.
  lemma NextStar(s: Text, lit: Text, q: Text)
    requires Literal(lit) && lit <= s && q != [] && q[0] == PERCENT
    ensures Glob(s, [PERCENT] + lit + q) <==> Glob(s[|lit|..], q)
  {
    var p := [PERCENT] + lit + q;
    assert p[1..] == lit + q;
    if Glob(s[|lit|..], q) {
      LiteralFirst(s, lit, q);
      assert s[0..] == s && Glob(s[0..], p[1..]);
    }
    if Glob(s, p) {
      var t :| 0 <= t <= |s| && Glob(s[t..], p[1..]);
      LiteralFirst(s[t..], lit, q);
      assert s[t..][|lit|..] == s[|lit|..][t..];
      StarEarlier(s[|lit|..], t, q);
    }
  }

  // The % has to take at least one character more.
  lemma Widen(s: Text, lit: Text, q: Text)
    requires Literal(lit) && lit <= s && |lit| < |s| && (q == [] || (q[0] != PERCENT && q[0] != s[|lit|]))
    ensures Glob(s, [PERCENT] + lit + q) <==> Glob(s[1..], [PERCENT] + lit + q)
  {
    var p := [PERCENT] + lit + q;
    assert p[1..] == lit + q;
    if Glob(s, p) {
      var t :| 0 <= t <= |s| && Glob(s[t..], p[1..]);
      LiteralFirst(s, lit, q);
      assert s[0..] == s;
      assert t > 0;
      assert s[1..][t - 1..] == s[t..];
    }
    if Glob(s[1..], p) {
      StarEarlier(s, 1, p);
    }
  }

  // The subject is used up: the rest of the pattern has to be all %.
  lemma SubjectEnds(lit: Text, q: Text)
    requires Literal(lit)
    ensures Glob(lit, [PERCENT] + lit + q) <==> Glob([], q)
  {
    var p := [PERCENT] + lit + q;
    assert p[1..] == lit + q;
    LiteralFirst(lit, lit, q);
    assert lit[|lit|..] == [] && lit[0..] == lit;
    if Glob(lit, p) {
      var t :| 0 <= t <= |lit| && Glob(lit[t..], p[1..]);
      LiteralFirst(lit[t..], lit, q);
      assert t == 0;
    }
  }

  lemma {:induction false} EmptySubject(q: Text)
    ensures Glob([], q) <==> forall k :: 0 <= k < |q| ==> q[k] == PERCENT
    decreases |q|
  {
    var none: Text := [];
    if q != [] {
      EmptySubject(q[1..]);
      assert none[0..] == none;
      AllStars(q);
    }
  }

  lemma AllStars(q: Text)
    requires q != []
    ensures (forall k :: 0 <= k < |q| ==> q[k] == PERCENT) <==>
      q[0] == PERCENT && forall k :: 0 <= k < |q[1..]| ==> q[1..][k] == PERCENT
  {
    if q[0] == PERCENT && forall k :: 0 <= k < |q[1..]| ==> q[1..][k] == PERCENT {
      forall k | 0 <= k < |q| ensures q[k] == PERCENT {
        if k > 0 {
          assert q[1..][k - 1] == PERCENT;
        }
      }
    }
  }

  // ---- The matcher ----

  // Where the search stands: the subject from i and the pattern from j are still to match, and when there is
  // a latest %, at pattern place k, it took the subject up to m.
  ghost predicate Standing(s: Text, p: Text, i: nat, j: nat, star: bool, k: nat, m: nat) {
    && i <= |s| && j <= |p|
    && if star then
         && k < j && m <= i && p[k] == PERCENT && i - m == j - (k + 1)
         && Literal(p[k + 1..j]) && s[m..i] == p[k + 1..j] && (Glob(s, p) <==> Glob(s[m..], p[k..]))
       else Glob(s, p) <==> Glob(s[i..], p[j..])
  }

  lemma Pieces(s: Text, p: Text, i: nat, j: nat, k: nat, m: nat)
    requires Standing(s, p, i, j, true, k, m)
    ensures p[k..] == [PERCENT] + p[k + 1..j] + p[j..] && s[m..][|p[k + 1..j]|..] == s[i..] && p[k + 1..j] <= s[m..]
  {
    assert p[k..] == [p[k]] + p[k + 1..j] + p[j..];
    assert s[m..] == s[m..i] + s[i..];
  }

  lemma OnStar(s: Text, p: Text, i: nat, j: nat, star: bool, k: nat, m: nat)
    requires Standing(s, p, i, j, star, k, m) && j < |p| && p[j] == PERCENT
    ensures Standing(s, p, i, j + 1, true, j, i)
  {
    assert p[j + 1..j + 1] == [] && s[i..i] == [];
    if star {
      Pieces(s, p, i, j, k, m);
      NextStar(s[m..], p[k + 1..j], p[j..]);
    }
  }

  lemma OnLiteral(s: Text, p: Text, i: nat, j: nat, star: bool, k: nat, m: nat)
    requires Standing(s, p, i, j, star, k, m) && i < |s| && j < |p| && p[j] == s[i] && p[j] != PERCENT
    ensures Standing(s, p, i + 1, j + 1, star, k, m)
  {
    if star {
      assert p[k + 1..j + 1] == p[k + 1..j] + [p[j]] && s[m..i + 1] == s[m..i] + [s[i]];
    } else {
      assert s[i..][1..] == s[i + 1..] && p[j..][1..] == p[j + 1..];
    }
  }

  lemma OnMismatch(s: Text, p: Text, i: nat, j: nat, k: nat, m: nat)
    requires Standing(s, p, i, j, true, k, m) && i < |s| && (j < |p| ==> p[j] != PERCENT && p[j] != s[i])
    ensures m + 1 <= |s| && Standing(s, p, m + 1, k + 1, true, k, m + 1)
  {
    Pieces(s, p, i, j, k, m);
    Widen(s[m..], p[k + 1..j], p[j..]);
    assert s[m..][1..] == s[m + 1..] && p[k + 1..k + 1] == [] && s[m + 1..m + 1] == [];
  }

  lemma OnEnd(s: Text, p: Text, i: nat, j: nat, star: bool, k: nat, m: nat)
    requires Standing(s, p, i, j, star, k, m) && i == |s|
    ensures Glob(s, p) <==> forall x :: j <= x < |p| ==> p[x] == PERCENT
  {
    EmptySubject(p[j..]);
    if star {
      Pieces(s, p, i, j, k, m);
      assert s[m..] == p[k + 1..j];
      SubjectEnds(p[k + 1..j], p[j..]);
    }
    assert forall x :: 0 <= x < |p[j..]| ==> p[j..][x] == p[j + x];
    assert forall x :: j <= x < |p| ==> p[x] == p[j..][x - j];
  }

  // The pattern from x1 on: only % up to its NUL?
  method OnlyStars(mem: array<Byte>, pattern: nat, ghost p: Text, start: nat) returns (x0: int)
    requires TextAt(mem[..], pattern, p) && pattern <= start <= pattern + |p|
    ensures x0 == if forall x :: start - pattern <= x < |p| ==> p[x] == PERCENT then 1 else 0
  {
    var x1 := start;
    CharAt(mem[..], pattern, p, x1 - pattern);
    while mem[x1] == PERCENT
      invariant pattern <= x1 <= pattern + |p| && x1 < mem.Length
      invariant mem[x1] == (if x1 - pattern < |p| then p[x1 - pattern] else 0)
      invariant start <= x1 && forall x :: start - pattern <= x < x1 - pattern ==> p[x] == PERCENT
      decreases pattern + |p| - x1
    {
      x1 := x1 + 1;
      CharAt(mem[..], pattern, p, x1 - pattern);
    }
    x0 := if mem[x1] != 0 then 0 else 1;
    if mem[x1] != 0 {
      CharAt(mem[..], pattern, p, x1 - pattern);
      assert p[x1 - pattern] != PERCENT;
    } else {
      CharAt(mem[..], pattern, p, x1 - pattern);
      assert x1 - pattern == |p|;
    }
  }

  // The registers, as places in the two texts.
  ghost predicate Registers(x0: nat, x1: nat, x2: nat, x3: nat, subject: nat, pattern: nat, i: nat, j: nat, star: bool,
                            k: nat, m: nat) {
    && x0 == subject + i && x1 == pattern + j && pattern > 0
    && (if star then x2 == pattern + k && x3 == subject + m else x2 == 0)
  }

  type Place = (nat, nat, bool, nat, nat) -> bool

  ghost function StandingOf(s: Text, p: Text): Place {
    (i: nat, j: nat, star: bool, k: nat, m: nat) => Standing(s, p, i, j, star, k, m)
  }

  // What a search state (i, j, star, k, m) may rely on.
  ghost predicate TurnLaw(s: Text, p: Text, at: Place, i: nat, j: nat, star: bool, k: nat, m: nat) {
    at(i, j, star, k, m) ==>
      && i <= |s| && j <= |p| && (star ==> k < j && m <= i)
      && (i == |s| ==> (Matches(s, p) <==> forall x :: j <= x < |p| ==> p[x] == PERCENT))
      && (i < |s| && j < |p| && p[j] == PERCENT ==> at(i, j + 1, true, j, i))
      && (i < |s| && j < |p| && p[j] != PERCENT && p[j] == s[i] ==> at(i + 1, j + 1, star, k, m))
      && (i < |s| && star && (j < |p| ==> p[j] != PERCENT && p[j] != s[i]) ==> at(m + 1, k + 1, true, k, m + 1))
      && (i < |s| && !star && (j < |p| ==> p[j] != PERCENT && p[j] != s[i]) ==> !Matches(s, p))
  }

  ghost predicate Laws(s: Text, p: Text, at: Place) {
    && at(0, 0, false, 0, 0)
    && forall i: nat, j: nat, star: bool, k: nat, m: nat {:trigger TurnLaw(s, p, at, i, j, star, k, m)} ::
         TurnLaw(s, p, at, i, j, star, k, m)
  }

  lemma TurnHolds(s: Text, p: Text, at: Place, i: nat, j: nat, star: bool, k: nat, m: nat)
    requires at == StandingOf(s, p)
    ensures TurnLaw(s, p, at, i, j, star, k, m)
  {
    if Standing(s, p, i, j, star, k, m) {
      GlobIsMatch(s, p);
      if i == |s| {
        OnEnd(s, p, i, j, star, k, m);
      } else if j < |p| && p[j] == PERCENT {
        OnStar(s, p, i, j, star, k, m);
      } else if j < |p| && p[j] == s[i] {
        OnLiteral(s, p, i, j, star, k, m);
      } else if star {
        OnMismatch(s, p, i, j, k, m);
      }
    }
  }

  lemma Searching(s: Text, p: Text) returns (at: Place)
    ensures Laws(s, p, at)
  {
    at := StandingOf(s, p);
    assert s[0..] == s && p[0..] == p;
    forall i: nat, j: nat, star: bool, k: nat, m: nat ensures TurnLaw(s, p, at, i, j, star, k, m) {
      TurnHolds(s, p, at, i, j, star, k, m);
    }
  }

  /** Returns 1 exactly when some substrings for the % signs make the whole subject; x2 = 0 means no % yet. */
  method WildcardMatch(mem: array<Byte>, subject: nat, pattern: nat, ghost s: Text, ghost p: Text) returns (r: int)
    requires TextAt(mem[..], subject, s) && TextAt(mem[..], pattern, p) && pattern > 0
    ensures r == if Matches(s, p) then 1 else 0
  {
    var x0: nat, x1: nat, x2: nat, x3: nat := subject, pattern, 0, 0;
    ghost var at := Searching(s, p);
    ghost var i: nat, j: nat, star, k: nat, m: nat := 0, 0, false, 0, 0;
    while true
      invariant Registers(x0, x1, x2, x3, subject, pattern, i, j, star, k, m) && (!star ==> k == 0 && m == 0)
      invariant at(i, j, star, k, m)
      decreases if star then |p| - k else |p| + 1, |s| - m, |p| - j
    {
      assert TurnLaw(s, p, at, i, j, star, k, m);
      CharAt(mem[..], subject, s, i);
      CharAt(mem[..], pattern, p, j);
      var x4 := mem[x0];
      if x4 == 0 {
        r := OnlyStars(mem, pattern, p, x1);
        return;
      }
      var x5 := mem[x1];
      if x5 == PERCENT {
        x2 := x1;
        x1 := x1 + 1;
        x3 := x0;
        star, k, m, j := true, j, i, j + 1;
      } else if x5 != 0 && x4 == x5 {
        x0 := x0 + 1;
        x1 := x1 + 1;
        i, j := i + 1, j + 1;
      } else if x2 == 0 {
        return 0;
      } else {
        x1 := x2 + 1;
        x3 := x3 + 1;
        x0 := x3;
        i, j, m := m + 1, k + 1, m + 1;
      }
    }
  }
}
