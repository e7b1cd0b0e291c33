/** White space and its removal (ASCII part), and occurrences of one string in another. */
module Strings {
  predicate IsSpace(c: char) {
    c == ' ' || '\t' <= c <= '\r' || (28 as char) <= c <= (31 as char)
  }

  lemma SpaceCharacters(c: char)
    ensures IsSpace(c) <==> c as int in {9, 10, 11, 12, 13, 28, 29, 30, 31, 32}
  {}

  function StripLeft(s: string): string {
    if s != "" && IsSpace(s[0]) then StripLeft(s[1..]) else s
  }

  function StripRight(s: string): string {
    if s != "" && IsSpace(s[|s| - 1]) then StripRight(s[..|s| - 1]) else s
  }

  function Strip(s: string): string {
    StripRight(StripLeft(s))
  }

  predicate Blank(s: string) {
    forall i :: 0 <= i < |s| ==> IsSpace(s[i])
  }

  lemma BlankSum(s: string, t: string)
    ensures Blank(s + t) <==> Blank(s) && Blank(t)
  {
    if Blank(s + t) {
      assert forall i :: 0 <= i < |s| ==> (s + t)[i] == s[i];
      assert forall i :: 0 <= i < |t| ==> (s + t)[|s| + i] == t[i];
    }
  }

  lemma {:induction false} StripLeftSum(s: string, t: string)
    ensures StripLeft(s + t) == if Blank(s) then StripLeft(t) else StripLeft(s) + t
    ensures Blank(s) <==> StripLeft(s) == ""
    ensures |StripLeft(s)| <= |s|
  {
    if s == "" {
      assert s + t == t;
    } else {
      assert (s + t)[1..] == s[1..] + t && s == [s[0]] + s[1..];
      BlankSum([s[0]], s[1..]);
      StripLeftSum(s[1..], t);
    }
  }

  lemma {:induction false} StripRightSum(s: string, t: string)
    ensures StripRight(s + t) == if Blank(t) then StripRight(s) else s + StripRight(t)
    ensures Blank(t) <==> StripRight(t) == ""
    ensures |StripRight(t)| <= |t|
  {
    if t == "" {
      assert s + t == s;
    } else {
      var n := |t| - 1;
      assert (s + t)[..|s| + n] == s + t[..n] && t == t[..n] + [t[n]];
      BlankSum(t[..n], [t[n]]);
      StripRightSum(s, t[..n]);
    }
  }

  /** Appending a text leaves the stripped form alone exactly when the text is blank. */
  lemma StripSum(s: string, t: string)
    ensures Strip(s + t) == Strip(s) <==> Blank(t)
    ensures Strip(s) == "" <==> Blank(s)
  {
    StripLeftSum(s, t);
    StripLeftSum(t, "");
    StripRightSum(StripLeft(s), t);
    StripRightSum("", StripLeft(s));
    StripRightSum("", StripLeft(t));
    BlankStripLeft(s);
    BlankStripLeft(t);
    assert t + "" == t && "" + StripLeft(s) == StripLeft(s) && "" + StripLeft(t) == StripLeft(t);
  }

  lemma {:induction false} BlankStripLeft(s: string)
    ensures Blank(StripLeft(s)) <==> Blank(s)
  {
    if s != "" {
      assert s == [s[0]] + s[1..];
      BlankSum([s[0]], s[1..]);
      BlankStripLeft(s[1..]);
    }
  }

  /** Stripping takes exactly the outer white space: what is left starts and ends with something else. */
  lemma StripsOuter(s: string) returns (before: string, after: string)
    ensures s == before + Strip(s) + after && Blank(before) && Blank(after)
    ensures Strip(s) != "" ==> !IsSpace(Strip(s)[0]) && !IsSpace(Strip(s)[|Strip(s)| - 1])
  {
    before := LeftOuter(s);
    after := RightOuter(StripLeft(s));
    if Strip(s) != "" { assert Strip(s)[0] == StripLeft(s)[0]; }
  }

  lemma {:induction false} LeftOuter(s: string) returns (before: string)
    ensures s == before + StripLeft(s) && Blank(before)
    ensures StripLeft(s) != "" ==> !IsSpace(StripLeft(s)[0])
  {
    if s != "" && IsSpace(s[0]) {
      var rest := LeftOuter(s[1..]);
      before := [s[0]] + rest;
      assert s == [s[0]] + s[1..];
    } else {
      before := "";
    }
  }

  lemma {:induction false} RightOuter(s: string) returns (after: string)
    ensures s == StripRight(s) + after && Blank(after)
    ensures StripRight(s) != "" ==> !IsSpace(StripRight(s)[|StripRight(s)| - 1])
  {
    if s != "" && IsSpace(s[|s| - 1]) {
      var rest := RightOuter(s[..|s| - 1]);
      after := rest + [s[|s| - 1]];
      assert s == s[..|s| - 1] + [s[|s| - 1]];
    } else {
      after := "";
    }
  }

  // ---------- Occurrences ----------

  /** From its `j`-th character on, `m` stands in `s` at `i`. */
  predicate Reads(s: string, m: string, i: nat, j: nat)
    requires i + |m| <= |s| && j <= |m|
    decreases |m| - j
  {
    j == |m| || (s[i + j] == m[j] && Reads(s, m, i, j + 1))
  }

  predicate OccursAt(s: string, m: string, i: nat) {
    i + |m| <= |s| && Reads(s, m, i, 0)
  }

  lemma {:induction false} ReadsEach(s: string, m: string, i: nat, j: nat)
    requires i + |m| <= |s| && j <= |m|
    ensures Reads(s, m, i, j) <==> forall c :: j <= c < |m| ==> s[i + c] == m[c]
    decreases |m| - j
  {
    if j < |m| { ReadsEach(s, m, i, j + 1); }
  }

  predicate Occurs(s: string, m: string) {
    exists i: nat | i <= |s| :: OccursAt(s, m, i)
  }
}
