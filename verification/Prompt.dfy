/**
 * Loop instructions kept between two markers of a system prompt
 * (src/loopmaster/agents/prompt_manager.py). Texts are searched from a position on, as a
 * pattern matcher scans them.
 */
module Prompt {
  import opened Values
  import opened Strings

  /** The two markers around an injected text. */
  datatype Marks = Marks(open: string, close: string)

  const LOOP_ENGINEER: Marks := Marks("<!-- LOOP_ENGINEER:start -->", "<!-- LOOP_ENGINEER:end -->")

  /** A text on one line, starting with no space and free of escapes. */
  predicate OneLiner(m: string) {
    m != "" && !IsSpace(m[0]) && forall i :: 0 <= i < |m| ==> m[i] != '\n' && m[i] != '\\'
  }

  /** Both markers are one-liners, and none can open inside the closing one. */
  predicate Proper(k: Marks) {
    OneLiner(k.open) && OneLiner(k.close) && |k.open| > |k.close| + 1
  }

  type Markers = k: Marks | Proper(k) witness LOOP_ENGINEER

  // ---------- Searching ----------

  /** The first occurrence from `i` on. */
  function Find(s: string, m: string, i: nat): (r: Option<nat>)
    requires i <= |s|
    ensures r.Some? ==> i <= r.value && OccursAt(s, m, r.value)
    decreases |s| - i
  {
    if OccursAt(s, m, i) then Some(i) else if i < |s| then Find(s, m, i + 1) else None
  }

  ghost predicate IsFirst(s: string, m: string, i: nat, r: Option<nat>) {
    if r.None? then forall j: nat | i <= j :: !OccursAt(s, m, j)
    else i <= r.value && OccursAt(s, m, r.value) && forall j: nat | i <= j < r.value :: !OccursAt(s, m, j)
  }

  lemma {:induction false} FirstIsFound(s: string, m: string, i: nat, r: Option<nat>)
    requires i <= |s|
    ensures IsFirst(s, m, i, r) <==> r == Find(s, m, i)
    decreases |s| - i
  {
    if !OccursAt(s, m, i) && i < |s| { FirstIsFound(s, m, i + 1, r); }
  }

  /** A marker lies to one side of every line break. */
  lemma OneLine(s: string, m: string, i: nat, b: nat)
    requires OccursAt(s, m, i) && OneLiner(m) && b < |s| && s[b] == '\n'
    ensures i + |m| <= b || b < i
  {
    ReadsEach(s, m, i, 0);
    forall c | i <= c < i + |m| ensures s[c] != '\n' { assert s[i + (c - i)] == m[c - i]; }
  }

  // ---------- Runs of newlines ----------

  predicate Newlines(s: string, from: nat, to: nat) {
    to <= |s| && forall i :: from <= i < to ==> s[i] == '\n'
  }

  function RunEnd(s: string, i: nat): (e: nat)
    requires i <= |s|
    ensures i <= e <= |s| && Newlines(s, i, e) && (e < |s| ==> s[e] != '\n')
    decreases |s| - i
  {
    if i < |s| && s[i] == '\n' then RunEnd(s, i + 1) else i
  }

  function RunStart(s: string, from: nat, i: nat): (b: nat)
    requires from <= i <= |s|
    ensures from <= b <= i && Newlines(s, b, i) && (b > from ==> s[b - 1] != '\n')
    decreases i
  {
    if i > from && s[i - 1] == '\n' then RunStart(s, from, i - 1) else i
  }

  // ---------- The marked section ----------

  /** Newlines from `from`, the opening marker at `open`, a body, the closing one at `close`, newlines to `to`. */
  datatype Span = Span(from: nat, open: nat, close: nat, to: nat)

  /** The span is one way for the pattern to match. */
  predicate Matches(k: Markers, s: string, m: Span) {
    && m.from <= m.open && m.open + |k.open| <= m.close && m.close + |k.close| <= m.to <= |s|
    && Newlines(s, m.from, m.open) && OccursAt(s, k.open, m.open)
    && OccursAt(s, k.close, m.close) && Newlines(s, m.close + |k.close|, m.to)
  }

  /**
   * `m` is `n` or comes before it in the order a backtracking matcher tries them: leftmost start,
   * longest leading newlines, shortest body, longest trailing newlines.
   */
  predicate Preferred(m: Span, n: Span) {
    || m.from < n.from
    || (m.from == n.from && (m.open > n.open
        || (m.open == n.open && (m.close < n.close
            || (m.close == n.close && m.to >= n.to)))))
  }

  function FindSection(k: Markers, s: string, i: nat): (r: Option<Span>)
    requires i <= |s|
    ensures r.Some? ==> i <= r.value.from && Matches(k, s, r.value)
  {
    var p := Find(s, k.open, i);
    if p.None? then None
    else
      var q := Find(s, k.close, p.value + |k.open|);
      if q.None? then None
      else Some(Span(RunStart(s, i, p.value), p.value, q.value, RunEnd(s, q.value + |k.close|)))
  }

  /** The section found is the preferred match from `i` on, and none is found exactly when nothing matches there. */
  lemma SectionIsPreferred(k: Markers, s: string, i: nat, n: Span)
    requires i <= n.from && Matches(k, s, n)
    ensures FindSection(k, s, i).Some? && Preferred(FindSection(k, s, i).value, n)
  {
    FirstIsFound(s, k.open, i, Find(s, k.open, i));
    var p := Find(s, k.open, i).value;
    FirstIsFound(s, k.close, p + |k.open|, Find(s, k.close, p + |k.open|));
    assert s[p + 0] == k.open[0];
  }

  /** Replace every section from `i` on. */
  function SubstituteFrom(k: Markers, s: string, i: nat, replacement: string): string
    requires i <= |s|
    decreases |s| - i
  {
    var m := FindSection(k, s, i);
    if m.None? then s[i..]
    else s[i..m.value.from] + (replacement + SubstituteFrom(k, s, m.value.to, replacement))
  }

  // ---------- The prompt manager ----------

  function Section(k: Markers, text: string): string {
    k.open + ("\n" + text + "\n") + k.close
  }

  /**
   * `template` expands the escapes of a replacement (None when one is malformed). The first
   * injection is taken as it is, a later one replaces every section present.
   */
  function Inject(k: Markers, prompt: string, text: string, template: string -> Option<string>): Option<string> {
    if !Occurs(prompt, k.open) then Some(prompt + "\n\n" + (Section(k, text) + "\n"))
    else
      var replacement := template("\n" + (Section(k, text) + "\n"));
      if replacement.None? then None else Some(SubstituteFrom(k, prompt, 0, replacement.value))
  }

  function InjectAll(k: Markers, prompt: string, texts: seq<string>, template: string -> Option<string>)
    : Option<string>
  {
    if texts == [] then Some(prompt)
    else
      var before := InjectAll(k, prompt, texts[..|texts| - 1], template);
      if before.None? then None else Inject(k, before.value, texts[|texts| - 1], template)
  }

  /** The first injection, to the letter: a blank line, the markers on lines of their own around the text. */
  lemma InjectedForm(k: Markers, prompt: string, text: string, template: string -> Option<string>)
    requires !Occurs(prompt, k.open)
    ensures Inject(k, prompt, text, template) ==
            Some(prompt + ("\n\n" + (k.open + ("\n" + (text + ("\n" + (k.close + "\n")))))))
  {
    var rest := "\n" + (k.close + "\n");
    assert "\n" + text + "\n" + (k.close + "\n") == "\n" + (text + rest);
    assert Section(k, text) + "\n" == k.open + ("\n" + text + "\n" + (k.close + "\n"));
    assert prompt + "\n\n" + (Section(k, text) + "\n") == prompt + ("\n\n" + (Section(k, text) + "\n"));
  }

  lemma DefaultMarkers()
    ensures LOOP_ENGINEER.open == "<!-- LOOP_ENGINEER:start -->" && LOOP_ENGINEER.close == "<!-- LOOP_ENGINEER:end -->"
  {}

  /** A later injection replaces every section, each by the same text, and keeps what lies between them. */
  lemma ReplacesEach(k: Markers, s: string, m: Span, next: Span, text: string, template: string -> Option<string>)
    requires Occurs(s, k.open) && FindSection(k, s, 0) == Some(m) && FindSection(k, s, m.to) == Some(next)
    requires FindSection(k, s, next.to).None?
    ensures var replacement := template("\n" + (k.open + ("\n" + text + "\n") + k.close + "\n"));
            Inject(k, s, text, template) ==
            if replacement.None? then None
            else Some(s[..m.from] + (replacement.value + (s[m.to..next.from] + (replacement.value + s[next.to..]))))
  {
    var replacement := template("\n" + (Section(k, text) + "\n"));
    if replacement.Some? {
      assert SubstituteFrom(k, s, next.to, replacement.value) == s[next.to..];
      assert SubstituteFrom(k, s, m.to, replacement.value) ==
             s[m.to..next.from] + (replacement.value + s[next.to..]);
    }
  }

  function Tidied(s: string): string {
    if Strip(s) == "" then "" else Strip(s) + "\n"
  }

  function RestoreOriginal(k: Markers, prompt: string): string {
    Tidied(SubstituteFrom(k, prompt, 0, ""))
  }

  function ExtractSection(k: Markers, prompt: string): Option<string> {
    var m := FindSection(k, prompt, 0);
    if m.None? then None else Some(Strip(prompt[m.value.open + |k.open|..m.value.close]))
  }

  // ---------- What restoring leaves behind ----------

  ghost predicate BlankIn(s: string, from: nat, to: nat) {
    to <= |s| && forall i :: from <= i < to ==> IsSpace(s[i])
  }

  /** 1 when the stretch holds something that is not blank. */
  function Stretch(s: string, from: nat, to: nat): nat
    requires from <= to <= |s|
    decreases |s| - from
  {
    if from == to then 0 else if IsSpace(s[from]) then Stretch(s, from + 1, to) else 1
  }

  lemma {:induction false} StretchIsBlank(s: string, from: nat, to: nat)
    requires from <= to <= |s|
    ensures Stretch(s, from, to) <= 1 && (Stretch(s, from, to) == 0 <==> BlankIn(s, from, to))
    decreases |s| - from
  {
    if from < to && IsSpace(s[from]) { StretchIsBlank(s, from + 1, to); }
  }

  /**
   * The stretches of the text between `i` and `e` that lie outside every section it makes: the
   * non-blank ones between a closing marker and the next opening one, and the last one, if a
   * closing marker is followed by no opening one.
   */
  function StraysFrom(k: Markers, s: string, i: nat, e: nat): nat
    requires i <= |s|
    decreases |s| - i
  {
    var q := Find(s, k.close, i);
    if q.None? || q.value >= e then 0
    else
      var p := Find(s, k.open, q.value + |k.close|);
      if p.None? then 1
      else Stretch(s, q.value + |k.close|, p.value) + StraysFrom(k, s, p.value + |k.open|, e)
  }

  /** An injected text with no strays stays in its section as a whole. */
  function Strays(k: Markers, text: string): nat {
    StraysFrom(k, text, 0, |text|)
  }

  /** The last line of the string is the closing marker, at `e`. */
  predicate EndsAt(k: Markers, s: string, e: nat) {
    && 1 <= e && e + |k.close| + 1 == |s| && OccursAt(s, k.close, e)
    && s[e - 1] == '\n' && s[e + |k.close|] == '\n'
  }

  /** Every other marker lies on the lines before. */
  lemma MarkersBefore(k: Markers, s: string, e: nat, i: nat)
    requires EndsAt(k, s, e)
    ensures OccursAt(s, k.open, i) ==> i + |k.open| < e
    ensures OccursAt(s, k.close, i) ==> i == e || i + |k.close| < e
  {
    if OccursAt(s, k.open, i) { OneLine(s, k.open, i, e - 1); }
    if OccursAt(s, k.close, i) {
      OneLine(s, k.close, i, e - 1);
      OneLine(s, k.close, i, e + |k.close|);
    }
  }

  lemma PastNewlines(s: string, m: string, i: nat, n: nat)
    requires i <= n && Newlines(s, i, n) && OneLiner(m)
    ensures Find(s, m, n) == Find(s, m, i)
  {
    var r := Find(s, m, n);
    FirstIsFound(s, m, n, r);
    forall j: nat | i <= j < n ensures !OccursAt(s, m, j) {
      if OccursAt(s, m, j) { OneLine(s, m, j, j); }
    }
    FirstIsFound(s, m, i, r);
  }

  /** The non-blank stretches left from `i` on once the sections are removed. */
  function LeftFrom(k: Markers, s: string, i: nat): nat
    requires i <= |s|
    decreases |s| - i
  {
    var m := FindSection(k, s, i);
    if m.None? then Stretch(s, i, |s|) else Stretch(s, i, m.value.from) + LeftFrom(k, s, m.value.to)
  }

  lemma {:induction false} NothingLeftIsBlank(k: Markers, s: string, i: nat)
    requires i <= |s|
    ensures Blank(SubstituteFrom(k, s, i, "")) <==> LeftFrom(k, s, i) == 0
    decreases |s| - i
  {
    var m := FindSection(k, s, i);
    if m.None? {
      BlankSlice(s, i, |s|);
      assert s[i..|s|] == s[i..];
    } else {
      NothingLeftIsBlank(k, s, m.value.to);
      RemovedOver(k, s, i, m.value);
      LeftOver(k, s, i, m.value);
    }
  }

  /** What is left blank when the section `m` is removed. */
  lemma RemovedOver(k: Markers, s: string, i: nat, m: Span)
    requires i <= |s| && FindSection(k, s, i) == Some(m)
    ensures Blank(SubstituteFrom(k, s, i, "")) <==>
              Stretch(s, i, m.from) == 0 && Blank(SubstituteFrom(k, s, m.to, ""))
  {
    var rest := SubstituteFrom(k, s, m.to, "");
    BlankSlice(s, i, m.from);
    assert "" + rest == rest;
    BlankSum(s[i..m.from], rest);
  }

  lemma LeftOver(k: Markers, s: string, i: nat, m: Span)
    requires i <= |s| && FindSection(k, s, i) == Some(m)
    ensures LeftFrom(k, s, i) == Stretch(s, i, m.from) + LeftFrom(k, s, m.to)
  {}

  lemma BlankSlice(s: string, from: nat, to: nat)
    requires from <= to <= |s|
    ensures Blank(s[from..to]) <==> Stretch(s, from, to) == 0
  {
    StretchIsBlank(s, from, to);
    if Blank(s[from..to]) {
      forall i | from <= i < to ensures IsSpace(s[i]) { assert s[from..to][i - from] == s[i]; }
    }
  }

  /** Every opened section is closed, by the last line at the latest. */
  lemma SectionFound(k: Markers, s: string, i: nat, e: nat)
    requires i <= |s| && EndsAt(k, s, e) && Find(s, k.open, i).Some?
    ensures FindSection(k, s, i).Some?
    ensures var m := FindSection(k, s, i).value;
            && Find(s, k.close, m.open + |k.open|) == Some(m.close) && m.to == RunEnd(s, m.close + |k.close|)
            && (m.close == e || m.close + |k.close| < e)
            && (m.close == e ==> m.to == |s|)
  {
    var p := Find(s, k.open, i).value;
    MarkersBefore(k, s, e, p);
    FirstIsFound(s, k.close, p + |k.open|, Find(s, k.close, p + |k.open|));
    MarkersBefore(k, s, e, Find(s, k.close, p + |k.open|).value);
  }

  lemma SectionExists(k: Markers, s: string, i: nat, e: nat)
    requires i <= |s| && EndsAt(k, s, e)
    ensures Find(s, k.open, i).Some? ==> FindSection(k, s, i).Some?
  {
    if Find(s, k.open, i).Some? { SectionFound(k, s, i, e); }
  }

  lemma NextSection(k: Markers, s: string, i: nat, e: nat, m: Span)
    requires i <= |s| && EndsAt(k, s, e) && FindSection(k, s, i) == Some(m)
    ensures m.close + |k.close| <= m.to <= |s|
    ensures var next := FindSection(k, s, m.to);
            Find(s, k.open, m.close + |k.close|) == if next.Some? then Some(next.value.open) else None
  {
    PastNewlines(s, k.open, m.close + |k.close|, m.to);
    SectionExists(k, s, m.to, e);
  }

  lemma StraysStep(k: Markers, s: string, i: nat, e: nat, q: nat, p: Option<nat>)
    requires i <= |s| && Find(s, k.close, i) == Some(q) && q < e && p == Find(s, k.open, q + |k.close|)
    ensures StraysFrom(k, s, i, e) ==
            if p.None? then 1 else Stretch(s, q + |k.close|, p.value) + StraysFrom(k, s, p.value + |k.open|, e)
  {}

  lemma StraysOver(k: Markers, s: string, i: nat, e: nat, q: nat, p: nat)
    requires i <= |s| && Find(s, k.close, i) == Some(q) && q < e && Find(s, k.open, q + |k.close|) == Some(p)
    ensures StraysFrom(k, s, i, e) == Stretch(s, q + |k.close|, p) + StraysFrom(k, s, p + |k.open|, e)
  {}

  lemma NoStrays(k: Markers, s: string, i: nat, e: nat)
    requires i <= |s| && (Find(s, k.close, i).None? || Find(s, k.close, i).value >= e)
    ensures StraysFrom(k, s, i, e) == 0
  {}

  lemma AllLeft(k: Markers, s: string, i: nat)
    requires i <= |s| && FindSection(k, s, i).None?
    ensures LeftFrom(k, s, i) == Stretch(s, i, |s|)
  {}

  /** Between two sections, what is left differs from what strays by newlines only. */
  lemma BetweenSections(k: Markers, s: string, m: Span, next: Span)
    requires Matches(k, s, m) && Matches(k, s, next) && m.to <= next.from
    ensures Stretch(s, m.close + |k.close|, next.open) == Stretch(s, m.to, next.from)
  {
    StretchTrimmed(s, m.close + |k.close|, m.to, next.from, next.open);
  }

  lemma SectionOpens(k: Markers, s: string, i: nat)
    requires i <= |s| && FindSection(k, s, i).Some?
    ensures Find(s, k.open, i) == Some(FindSection(k, s, i).value.open)
  {}

  /** The next opening marker behind a section, newlines or not. */
  lemma NextOpening(k: Markers, s: string, m: Span, next: Span)
    requires Matches(k, s, m) && FindSection(k, s, m.to) == Some(next)
    ensures Find(s, k.open, m.close + |k.close|) == Some(next.open)
  {
    SectionOpens(k, s, m.to);
    PastNewlines(s, k.open, m.close + |k.close|, m.to);
  }

  /** The strays of a section, counted: those before the next opening marker and those onward. */
  lemma StraysCounted(k: Markers, s: string, i: nat, e: nat, q: nat, p: nat, gap: nat, onward: nat)
    requires i <= |s| && Find(s, k.close, i) == Some(q) && q < e && Find(s, k.open, q + |k.close|) == Some(p)
    requires Stretch(s, q + |k.close|, p) == gap && StraysFrom(k, s, p + |k.open|, e) == onward
    ensures StraysFrom(k, s, i, e) == gap + onward
  {
    StraysOver(k, s, i, e, q, p);
  }

  lemma LeftMeetsStrays(k: Markers, s: string, e: nat, m: Span, next: Span)
    requires Matches(k, s, m) && Matches(k, s, next) && m.to <= next.from
    requires Find(s, k.close, m.open + |k.open|) == Some(m.close) && m.close < e
    requires Find(s, k.open, m.close + |k.close|) == Some(next.open)
    requires LeftFrom(k, s, m.to) == Stretch(s, m.to, next.from) + LeftFrom(k, s, next.to)
    requires LeftFrom(k, s, next.to) == StraysFrom(k, s, next.open + |k.open|, e)
    ensures LeftFrom(k, s, m.to) == StraysFrom(k, s, m.open + |k.open|, e)
  {
    BetweenSections(k, s, m, next);
    var gap, onward := Stretch(s, m.to, next.from), LeftFrom(k, s, next.to);
    StraysCounted(k, s, m.open + |k.open|, e, m.close, next.open, gap, onward);
  }

  lemma LeftMeetsOnward(k: Markers, s: string, i: nat, e: nat, m: Span, next: Span)
    requires i <= |s| && EndsAt(k, s, e) && FindSection(k, s, i) == Some(m) && m.close != e
    requires FindSection(k, s, m.to) == Some(next)
    requires LeftFrom(k, s, next.to) == StraysFrom(k, s, next.open + |k.open|, e)
    ensures LeftFrom(k, s, m.to) == StraysFrom(k, s, m.open + |k.open|, e)
  {
    assert Find(s, k.close, m.open + |k.open|) == Some(m.close) && m.close < e by {
      SectionOpens(k, s, i);
      SectionFound(k, s, i, e);
    }
    NextOpening(k, s, m, next);
    LeftOver(k, s, m.to, next);
    LeftMeetsStrays(k, s, e, m, next);
  }

  lemma BehindLast(k: Markers, s: string, i: nat)
    requires i == |s|
    ensures LeftFrom(k, s, i) == 0
  {}

  lemma LastStrays(k: Markers, s: string, i: nat, e: nat, m: Span)
    requires i <= |s| && EndsAt(k, s, e) && FindSection(k, s, i) == Some(m)
    requires m.close == e || FindSection(k, s, m.to).None?
    ensures LeftFrom(k, s, m.to) == StraysFrom(k, s, m.open + |k.open|, e)
  {
    SectionFound(k, s, i, e);
    if m.close == e {
      BehindLast(k, s, m.to);
      NoStrays(k, s, m.open + |k.open|, e);
    } else {
      NextSection(k, s, i, e, m);
      AllLeft(k, s, m.to);
      StraysStep(k, s, m.open + |k.open|, e, m.close, None);
      LastIsNotBlank(k, s, e, m.close + |k.close|, m.to);
    }
  }

  /** Removing the sections leaves as many non-blank stretches behind the first as its text has strays. */
  lemma {:induction false} LeftAreStrays(k: Markers, s: string, i: nat, e: nat, m: Span)
    requires i <= |s| && EndsAt(k, s, e) && FindSection(k, s, i) == Some(m)
    ensures LeftFrom(k, s, m.to) == StraysFrom(k, s, m.open + |k.open|, e)
    decreases |s| - i
  {
    var next := FindSection(k, s, m.to);
    if m.close == e || next.None? {
      LastStrays(k, s, i, e, m);
    } else {
      LeftAreStrays(k, s, m.to, e, next.value);
      LeftMeetsOnward(k, s, i, e, m, next.value);
    }
  }

  lemma StretchTrimmed(s: string, a: nat, n: nat, b: nat, c: nat)
    requires a <= n <= b <= c && Newlines(s, a, n) && Newlines(s, b, c)
    ensures Stretch(s, a, c) == Stretch(s, n, b)
  {
    StretchIsBlank(s, a, c);
    StretchIsBlank(s, n, b);
  }

  lemma LastIsNotBlank(k: Markers, s: string, e: nat, i: nat, n: nat)
    requires EndsAt(k, s, e) && i <= e && i <= n && Newlines(s, i, n)
    ensures n <= e && Stretch(s, n, |s|) == 1
  {
    StretchIsBlank(s, n, |s|);
    assert s[e + 0] == k.close[0];
  }

  // ---------- Round trips ----------

  /** The text lies in `s` at `o`, and the closing marker alone follows on the next line. */
  predicate Holds(k: Markers, s: string, text: string, o: nat) {
    o + |text| < |s| && s[o + |text|] == '\n' && EndsAt(k, s, o + |text| + 1)
    && forall i :: 0 <= i < |text| ==> s[o + i] == text[i]
  }

  lemma FindInside(k: Markers, s: string, text: string, o: nat, m: string, i: nat)
    requires Holds(k, s, text, o) && i <= |text| && (m == k.open || m == k.close)
    ensures var r := Find(text, m, i);
            Find(s, m, o + i) ==
              if r.Some? then Some(o + r.value) else if m == k.close then Some(o + |text| + 1) else None
  {
    var e := o + |text| + 1;
    var r := Find(text, m, i);
    forall l: nat | o + i <= l ensures OccursAt(s, m, l) <==> OccursAt(text, m, l - o) || (m == k.close && l == e) {
      OccursInside(k, s, text, o, m, l);
    }
    FirstIsFound(text, m, i, r);
    FirstIsFound(s, m, o + i, if r.Some? then Some(o + r.value) else if m == k.close then Some(e) else None);
  }

  lemma OccursInside(k: Markers, s: string, text: string, o: nat, m: string, l: nat)
    requires Holds(k, s, text, o) && o <= l && (m == k.open || m == k.close)
    ensures OccursAt(s, m, l) <==> OccursAt(text, m, l - o) || (m == k.close && l == o + |text| + 1)
  {
    var j := l - o;
    MarkersBefore(k, s, o + |text| + 1, l);
    if j + |m| <= |text| {
      ReadsEach(s, m, l, 0);
      ReadsEach(text, m, j, 0);
      assert forall c {:trigger m[c]} :: 0 <= c < |m| ==> s[l + c] == s[o + (j + c)] == text[j + c];
    }
  }

  /** Of two texts that read alike from `i` and `o + i` up to the next section, and agree behind it. */
  lemma StraysShifted(k: Markers, s: string, e: nat, text: string, f: nat, o: nat, i: nat, q: nat, p: nat)
    requires i <= |text| && Find(text, k.close, i) == Some(q) && q < f && Find(text, k.open, q + |k.close|) == Some(p)
    requires o + i <= |s| && Find(s, k.close, o + i) == Some(o + q) && o + q < e
    requires o + (q + |k.close|) <= |s| && Find(s, k.open, o + (q + |k.close|)) == Some(o + p)
    requires Stretch(s, o + (q + |k.close|), o + p) == Stretch(text, q + |k.close|, p)
    requires StraysFrom(k, s, o + (p + |k.open|), e) == StraysFrom(k, text, p + |k.open|, f)
    ensures StraysFrom(k, s, o + i, e) == StraysFrom(k, text, i, f)
  {
    StraysOver(k, text, i, f, q, p);
    StraysOver(k, s, o + i, e, o + q, o + p);
  }

  /**
   * From `i` on, `s` has the first markers of the text, shifted by `o`, and the same stretch before
   * the opening one.
   */
  ghost predicate ReadsAlike(k: Markers, s: string, text: string, o: nat, i: nat) {
    && i <= |text| && o + i <= |s|
    && Find(s, k.open, o + i) == Shifted(o, Find(text, k.open, i), None)
    && Find(s, k.close, o + i) == Shifted(o, Find(text, k.close, i), Some(o + |text| + 1))
    && var p := Find(text, k.open, i);
       p.Some? ==> o + (p.value + |k.open|) <= |s| && Stretch(s, o + i, o + p.value) == Stretch(text, i, p.value)
  }

  function Shifted(o: nat, r: Option<nat>, otherwise: Option<nat>): Option<nat> {
    if r.Some? then Some(o + r.value) else otherwise
  }

  lemma HeldReadsAlike(k: Markers, s: string, text: string, o: nat, i: nat)
    requires Holds(k, s, text, o) && i <= |text|
    ensures ReadsAlike(k, s, text, o, i)
  {
    FindInside(k, s, text, o, k.open, i);
    FindInside(k, s, text, o, k.close, i);
    var p := Find(text, k.open, i);
    if p.Some? { StretchInside(s, text, o, i, p.value); }
  }

  lemma StraysAlikeNone(k: Markers, s: string, text: string, o: nat, e: nat, i: nat)
    requires e == o + |text| + 1 && ReadsAlike(k, s, text, o, i) && Find(text, k.close, i).None?
    ensures StraysFrom(k, s, o + i, e) == StraysFrom(k, text, i, |text|)
  {
    NoStrays(k, s, o + i, e);
    NoStrays(k, text, i, |text|);
  }

  lemma StraysAlikeLast(k: Markers, s: string, text: string, o: nat, e: nat, i: nat, q: nat)
    requires e == o + |text| + 1 && ReadsAlike(k, s, text, o, i) && Find(text, k.close, i) == Some(q)
    requires ReadsAlike(k, s, text, o, q + |k.close|) && Find(text, k.open, q + |k.close|).None?
    ensures StraysFrom(k, s, o + i, e) == StraysFrom(k, text, i, |text|)
  {
    StraysStep(k, text, i, |text|, q, None);
    StraysStep(k, s, o + i, e, o + q, None);
  }

  lemma StraysAlikeStep(k: Markers, s: string, text: string, o: nat, e: nat, i: nat, q: nat, p: nat)
    requires e == o + |text| + 1 && ReadsAlike(k, s, text, o, i) && Find(text, k.close, i) == Some(q)
    requires ReadsAlike(k, s, text, o, q + |k.close|) && Find(text, k.open, q + |k.close|) == Some(p)
    requires StraysFrom(k, s, o + (p + |k.open|), e) == StraysFrom(k, text, p + |k.open|, |text|)
    ensures StraysFrom(k, s, o + i, e) == StraysFrom(k, text, i, |text|)
  {
    StraysShifted(k, s, e, text, |text|, o, i, q, p);
  }

  /** A text has the same strays wherever it is held. */
  lemma {:induction false} StraysAlike(k: Markers, s: string, text: string, o: nat, e: nat, i: nat)
    requires e == o + |text| + 1 && i <= |text| && o + |text| <= |s|
    requires forall j: nat :: i <= j <= |text| ==> ReadsAlike(k, s, text, o, j)
    ensures StraysFrom(k, s, o + i, e) == StraysFrom(k, text, i, |text|)
    decreases |text| - i
  {
    assert ReadsAlike(k, s, text, o, i);
    var q := Find(text, k.close, i);
    if q.None? {
      StraysAlikeNone(k, s, text, o, e, i);
    } else {
      var j := q.value + |k.close|;
      assert ReadsAlike(k, s, text, o, j);
      var p := Find(text, k.open, j);
      if p.None? {
        StraysAlikeLast(k, s, text, o, e, i, q.value);
      } else {
        StraysAlike(k, s, text, o, e, p.value + |k.open|);
        StraysAlikeStep(k, s, text, o, e, i, q.value, p.value);
      }
    }
  }

  lemma StraysInside(k: Markers, s: string, text: string, o: nat, i: nat)
    requires Holds(k, s, text, o) && i <= |text|
    ensures StraysFrom(k, s, o + i, o + |text| + 1) == StraysFrom(k, text, i, |text|)
  {
    forall j: nat | i <= j <= |text| ensures ReadsAlike(k, s, text, o, j) { HeldReadsAlike(k, s, text, o, j); }
    StraysAlike(k, s, text, o, o + |text| + 1, i);
  }

  lemma StretchInside(s: string, text: string, o: nat, from: nat, to: nat)
    requires o + |text| <= |s| && from <= to <= |text|
    requires forall i :: 0 <= i < |text| ==> s[o + i] == text[i]
    ensures Stretch(s, o + from, o + to) == Stretch(text, from, to)
  {
    StretchIsBlank(s, o + from, o + to);
    StretchIsBlank(text, from, to);
    if BlankIn(s, o + from, o + to) {
      forall i | from <= i < to ensures IsSpace(text[i]) { assert s[o + i] == text[i]; }
    }
    if BlankIn(text, from, to) {
      forall i | o + from <= i < o + to ensures IsSpace(s[i]) { assert s[o + (i - o)] == text[i - o]; }
    }
  }

  function Injected(k: Markers, a: string, text: string): string {
    a + (Section(k, text) + "\n")
  }

  /** A text that may stand before the marked section. */
  predicate Before(k: Markers, a: string) {
    !Occurs(a, k.open) && a != "" && a[|a| - 1] == '\n'
  }

  lemma StandsInside(a: string, m: string, c: string)
    ensures OccursAt(a + (m + c), m, |a|)
    ensures forall i :: 0 <= i < |m| ==> (a + (m + c))[|a| + i] == m[i]
  {
    ReadsEach(a + (m + c), m, |a|, 0);
  }

  lemma OccursInPrefix(s: string, n: nat, m: string, i: nat)
    requires n <= |s| && OccursAt(s, m, i) && i + |m| <= n
    ensures Occurs(s[..n], m)
  {
    ReadsEach(s, m, i, 0);
    ReadsEach(s[..n], m, i, 0);
    assert OccursAt(s[..n], m, i);
  }

  /** What follows the opening marker, and what follows the text. */
  function Body(k: Markers, text: string): string {
    "\n" + (text + Closing(k))
  }

  function Closing(k: Markers): string {
    "\n" + (k.close + "\n")
  }

  lemma InjectedParts(k: Markers, a: string, text: string)
    ensures Injected(k, a, text) == a + (k.open + Body(k, text))
  {
    var middle := "\n" + text + "\n";
    assert Section(k, text) + "\n" == k.open + (middle + (k.close + "\n"));
    assert middle + (k.close + "\n") == Body(k, text);
  }

  lemma BodyLayout(k: Markers, front: string, text: string)
    ensures var s := front + Body(k, text);
            Holds(k, s, text, |front| + 1) && s[|front|] == '\n'
  {
    var line := front + "\n";
    SumAssociates(front, "\n", text + Closing(k));
    SumAssociates(line, text, Closing(k));
    SumAssociates(line + text, "\n", k.close + "\n");
    StandsInside(line, text, Closing(k));
    StandsInside(line + text + "\n", k.close, "\n");
  }

  lemma Layout(k: Markers, a: string, text: string)
    requires Before(k, a)
    ensures var s := Injected(k, a, text);
            && Holds(k, s, text, |a| + |k.open| + 1) && s[|a| + |k.open|] == '\n'
            && s[|a| - 1] == '\n' && s[..|a|] == a && OccursAt(s, k.open, |a|)
  {
    var s := Injected(k, a, text);
    InjectedParts(k, a, text);
    StandsInside(a, k.open, Body(k, text));
    SumAssociates(a, k.open, Body(k, text));
    BodyLayout(k, a + k.open, text);
  }

  lemma FirstOpening(k: Markers, a: string, text: string)
    requires Before(k, a)
    ensures Find(Injected(k, a, text), k.open, 0) == Some(|a|)
  {
    var s := Injected(k, a, text);
    Layout(k, a, text);
    forall j: nat | j < |a| ensures !OccursAt(s, k.open, j) {
      if OccursAt(s, k.open, j) {
        OneLine(s, k.open, j, |a| - 1);
        OccursInPrefix(s, |a|, k.open, j);
      }
    }
    FirstIsFound(s, k.open, 0, Some(|a|));
  }

  /** The first section of an injected prompt starts where the newlines before it do. */
  lemma FirstSection(k: Markers, a: string, text: string)
    requires Before(k, a)
    ensures var s := Injected(k, a, text);
            && FindSection(k, s, 0).Some?
            && var m := FindSection(k, s, 0).value;
            && m.open == |a| && m.from < |a| && Newlines(s, m.from, |a|)
  {
    Layout(k, a, text);
    FirstOpening(k, a, text);
    SectionFound(k, Injected(k, a, text), 0, |a| + |k.open| + 1 + |text| + 1);
  }

  /** It reaches to the end when the text holds no closing marker. */
  lemma OnlySection(k: Markers, a: string, text: string)
    requires Before(k, a) && !Occurs(text, k.close)
    ensures var s := Injected(k, a, text);
            && FindSection(k, s, 0).Some?
            && var m := FindSection(k, s, 0).value;
            && m.open == |a| && m.close == |a| + |k.open| + 1 + |text| + 1 && m.to == |s|
  {
    Layout(k, a, text);
    FirstOpening(k, a, text);
    OnlySectionOf(k, Injected(k, a, text), text, |a| + |k.open| + 1);
  }

  lemma OnlySectionOf(k: Markers, s: string, text: string, o: nat)
    requires 0 < o && Holds(k, s, text, o) && s[o - 1] == '\n' && !Occurs(text, k.close)
    requires Find(s, k.open, 0).Some? && Find(s, k.open, 0).value + |k.open| + 1 == o
    ensures FindSection(k, s, 0).Some?
    ensures var m := FindSection(k, s, 0).value;
            m.open + |k.open| + 1 == o && m.close == o + |text| + 1 && m.to == |s|
  {
    ClosedAtEnd(k, s, text, o);
    SectionFound(k, s, 0, o + |text| + 1);
  }

  lemma ClosedAtEnd(k: Markers, s: string, text: string, o: nat)
    requires 0 < o && Holds(k, s, text, o) && s[o - 1] == '\n' && !Occurs(text, k.close)
    ensures Find(s, k.close, o - 1) == Some(o + |text| + 1)
  {
    FindInside(k, s, text, o, k.close, 0);
    PastNewlines(s, k.close, o - 1, o);
    FirstIsFound(text, k.close, 0, Find(text, k.close, 0));
  }

  lemma StraysPastNewlines(k: Markers, s: string, i: nat, n: nat, e: nat)
    requires i <= n && Newlines(s, i, n)
    ensures StraysFrom(k, s, i, e) == StraysFrom(k, s, n, e)
  {
    PastNewlines(s, k.close, i, n);
    var q := Find(s, k.close, n);
    if q.None? || q.value >= e {
      NoStrays(k, s, i, e);
      NoStrays(k, s, n, e);
    } else {
      var p := Find(s, k.open, q.value + |k.close|);
      StraysStep(k, s, i, e, q.value, p);
      StraysStep(k, s, n, e, q.value, p);
    }
  }

  /** The strays of a text do not depend on where it is held, the line break before it included. */
  lemma StraysOfHeld(k: Markers, s: string, text: string, o: nat)
    requires 0 < o && Holds(k, s, text, o) && s[o - 1] == '\n'
    ensures StraysFrom(k, s, o - 1, o + |text| + 1) == Strays(k, text)
  {
    var e := o + |text| + 1;
    assert StraysFrom(k, s, o - 1, e) == StraysFrom(k, s, o, e) by { StraysPastNewlines(k, s, o - 1, o, e); }
    assert StraysFrom(k, s, o + 0, e) == Strays(k, text) by { StraysInside(k, s, text, o, 0); }
  }

  lemma LeftOfHeld(k: Markers, s: string, text: string, o: nat, m: Span)
    requires 0 < o && Holds(k, s, text, o) && s[o - 1] == '\n'
    requires FindSection(k, s, 0) == Some(m) && m.open + |k.open| == o - 1
    ensures LeftFrom(k, s, m.to) == Strays(k, text)
  {
    StraysOfHeld(k, s, text, o);
    LeftAreStrays(k, s, 0, o + |text| + 1, m);
  }

  lemma TidiedAlike(s: string, t: string)
    ensures Tidied(s) == Tidied(t) <==> Strip(s) == Strip(t)
  {
    if Strip(s) != "" && Strip(t) != "" && Tidied(s) == Tidied(t) {
      assert Tidied(s)[..|Strip(s)|] == Strip(s) && Tidied(t)[..|Strip(t)|] == Strip(t);
    }
  }

  lemma StripBeforeNewlines(s: string, a: nat, b: nat)
    requires a <= b && Newlines(s, a, b)
    ensures Strip(s[..a]) == Strip(s[..b])
  {
    assert s[..b] == s[..a] + s[a..b];
    StripSum(s[..a], s[a..b]);
  }

  lemma FirstSubstituted(k: Markers, s: string, m: Span)
    requires FindSection(k, s, 0) == Some(m)
    ensures SubstituteFrom(k, s, 0, "") == s[..m.from] + SubstituteFrom(k, s, m.to, "")
  {
    var rest := SubstituteFrom(k, s, m.to, "");
    assert "" + rest == rest && s[0..m.from] == s[..m.from];
  }

  /** Restoring gives back what stands before the first section exactly when nothing is left behind it. */
  lemma RestoredBefore(k: Markers, s: string, n: nat, m: Span)
    requires FindSection(k, s, 0) == Some(m) && m.from <= n && Newlines(s, m.from, n)
    ensures RestoreOriginal(k, s) == Tidied(s[..n]) <==> LeftFrom(k, s, m.to) == 0
  {
    var rest := SubstituteFrom(k, s, m.to, "");
    NothingLeftIsBlank(k, s, m.to);
    FirstSubstituted(k, s, m);
    StripBeforeNewlines(s, m.from, n);
    StripSum(s[..m.from], rest);
    TidiedAlike(s[..m.from] + rest, s[..n]);
  }

  lemma RestoreInjected(k: Markers, a: string, text: string)
    requires Before(k, a)
    ensures RestoreOriginal(k, Injected(k, a, text)) == Tidied(a) <==> Strays(k, text) == 0
  {
    var s := Injected(k, a, text);
    FirstSection(k, a, text);
    Layout(k, a, text);
    var m := FindSection(k, s, 0).value;
    LeftOfHeld(k, s, text, |a| + |k.open| + 1, m);
    RestoredBefore(k, s, |a|, m);
  }

  lemma AfterPrompt(k: Markers, prompt: string)
    requires !Occurs(prompt, k.open)
    ensures Before(k, prompt + "\n\n") && Tidied(prompt + "\n\n") == Tidied(prompt)
  {
    var a := prompt + "\n\n";
    StripSum(prompt, "\n\n");
    assert a[..|prompt|] == prompt;
    forall j: nat | j <= |a| ensures !OccursAt(a, k.open, j) {
      if OccursAt(a, k.open, j) {
        OneLine(a, k.open, j, |prompt|);
        OneLine(a, k.open, j, |prompt| + 1);
        OccursInPrefix(a, |prompt|, k.open, j);
      }
    }
  }

  /**
   * One injection into an unmarked prompt is undone, up to surrounding white space, exactly when
   * the injected text has no strays: no closing marker of its own, or none that lets anything
   * but blanks out of the section.
   */
  lemma RestoreExactly(k: Markers, prompt: string, text: string, template: string -> Option<string>)
    requires !Occurs(prompt, k.open)
    ensures var injected := Inject(k, prompt, text, template);
            injected.Some? && (RestoreOriginal(k, injected.value) == Tidied(prompt) <==> Strays(k, text) == 0)
  {
    AfterPrompt(k, prompt);
    RestoreInjected(k, prompt + "\n\n", text);
  }

  lemma NoMarkerNoStrays(k: Markers, text: string)
    requires !Occurs(text, k.close)
    ensures Strays(k, text) == 0
  {
    FirstIsFound(text, k.close, 0, Find(text, k.close, 0));
    NoStrays(k, text, 0, |text|);
  }

  lemma ClosingMarkerStrays(k: Markers)
    ensures Strays(k, k.close) == 1
  {
    ReadsEach(k.close, k.close, 0, 0);
    assert OccursAt(k.close, k.close, 0);
    FirstIsFound(k.close, k.open, |k.close|, None);
    StraysStep(k, k.close, 0, |k.close|, 0, None);
  }

  /** Injecting the closing marker, into the empty prompt say, is not undone. */
  lemma ClosingMarkerStays(k: Markers, template: string -> Option<string>)
    ensures !Occurs("", k.open)
    ensures var injected := Inject(k, "", k.close, template);
            injected.Some? && RestoreOriginal(k, injected.value) != ""
  {
    assert Tidied("") == "";
    ClosingMarkerStrays(k);
    RestoreExactly(k, "", k.close, template);
  }

  // ---------- Repeated injection ----------

  /** Expansion leaves a replacement without backslashes alone. */
  ghost predicate PlainTemplate(template: string -> Option<string>) {
    forall s :: '\\' !in s ==> template(s) == Some(s)
  }

  /** Replacing the section of a text without closing marker keeps what stands before it. */
  lemma Reinjected(k: Markers, a: string, text: string, newText: string)
    returns (b: string)
    requires Before(k, a) && !Occurs(text, k.close)
    ensures Before(k, b) && Strip(b) == Strip(a)
    ensures SubstituteFrom(k, Injected(k, a, text), 0, "\n" + (Section(k, newText) + "\n")) == Injected(k, b, newText)
  {
    var s, replacement := Injected(k, a, text), "\n" + (Section(k, newText) + "\n");
    FirstSection(k, a, text);
    OnlySection(k, a, text);
    Layout(k, a, text);
    var m := FindSection(k, s, 0).value;
    b := s[..m.from] + "\n";
    assert b == a[..m.from + 1];
    StripBeforeNewlines(s, m.from, m.from + 1);
    StripBeforeNewlines(s, m.from, |a|);
    assert s[..m.from + 1] == b;
    forall j: nat | j <= |b| ensures !OccursAt(b, k.open, j) {
      if OccursAt(b, k.open, j) { OccursLonger(a, |b|, k.open, j); }
    }
    NothingAfter(k, s, replacement);
    assert s[0..m.from] + (replacement + "") == s[..m.from] + replacement;
    SumAssociates(s[..m.from], "\n", Section(k, newText) + "\n");
  }

  lemma OccursLonger(s: string, n: nat, m: string, i: nat)
    requires n <= |s| && OccursAt(s[..n], m, i)
    ensures Occurs(s, m)
  {
    ReadsEach(s, m, i, 0);
    ReadsEach(s[..n], m, i, 0);
    assert OccursAt(s, m, i);
  }

  lemma NothingAfter(k: Markers, s: string, replacement: string)
    ensures SubstituteFrom(k, s, |s|, replacement) == ""
  {}

  lemma HasMarker(k: Markers, a: string, text: string)
    requires Before(k, a)
    ensures Occurs(Injected(k, a, text), k.open)
  {
    Layout(k, a, text);
  }

  predicate Plain(k: Markers, texts: seq<string>) {
    && (forall i :: 0 <= i < |texts| ==> !Occurs(texts[i], k.close))
    && (forall i :: 1 <= i < |texts| ==> '\\' !in texts[i])
  }

  lemma PlainSection(k: Markers, text: string)
    requires '\\' !in text
    ensures '\\' !in "\n" + (Section(k, text) + "\n")
  {}

  lemma InjectAgain(k: Markers, a: string, text: string, newText: string, template: string -> Option<string>)
    returns (b: string)
    requires Before(k, a) && !Occurs(text, k.close) && '\\' !in newText && PlainTemplate(template)
    ensures Before(k, b) && Strip(b) == Strip(a)
    ensures Inject(k, Injected(k, a, text), newText, template) == Some(Injected(k, b, newText))
  {
    HasMarker(k, a, text);
    PlainSection(k, newText);
    b := Reinjected(k, a, text, newText);
  }

  /** After any number of injections the prompt holds one section, the last text, after the original. */
  lemma {:induction false} InjectionsLeaveOne(
      k: Markers, prompt: string, texts: seq<string>, template: string -> Option<string>)
    returns (a: string)
    requires !Occurs(prompt, k.open) && texts != [] && Plain(k, texts) && PlainTemplate(template)
    ensures Before(k, a) && Strip(a) == Strip(prompt)
    ensures InjectAll(k, prompt, texts, template) == Some(Injected(k, a, texts[|texts| - 1]))
    decreases |texts|
  {
    var n := |texts| - 1;
    if n == 0 {
      a := prompt + "\n\n";
      AfterPrompt(k, prompt);
      StripSum(prompt, "\n\n");
      assert InjectAll(k, prompt, texts[..0], template) == Some(prompt);
    } else {
      assert texts[..n][n - 1] == texts[n - 1];
      var b := InjectionsLeaveOne(k, prompt, texts[..n], template);
      a := InjectAgain(k, b, texts[n - 1], texts[n], template);
    }
  }

  /**
   * The marker round trip: whatever was injected, however often, restoring gives back the stripped
   * prompt and a newline (or nothing, for a blank prompt), and extracting gives the last text.
   */
  lemma MarkerRoundTrip(k: Markers, prompt: string, texts: seq<string>, template: string -> Option<string>)
    requires !Occurs(prompt, k.open) && texts != [] && Plain(k, texts) && PlainTemplate(template)
    ensures var injected := InjectAll(k, prompt, texts, template);
            && injected.Some?
            && RestoreOriginal(k, injected.value) == (if Strip(prompt) == "" then "" else Strip(prompt) + "\n")
            && ExtractSection(k, injected.value) == Some(Strip(texts[|texts| - 1]))
  {
    var text := texts[|texts| - 1];
    var a := InjectionsLeaveOne(k, prompt, texts, template);
    NoMarkerNoStrays(k, text);
    RestoreInjected(k, a, text);
    ExtractInjected(k, a, text);
  }

  lemma ExtractInjected(k: Markers, a: string, text: string)
    requires Before(k, a) && !Occurs(text, k.close)
    ensures ExtractSection(k, Injected(k, a, text)) == Some(Strip(text))
  {
    OnlySection(k, a, text);
    Layout(k, a, text);
    HeldLines(k, Injected(k, a, text), text, |a| + |k.open| + 1);
  }

  lemma HeldLines(k: Markers, s: string, text: string, o: nat)
    requires 0 < o && Holds(k, s, text, o) && s[o - 1] == '\n'
    ensures Strip(s[o - 1..o + |text| + 1]) == Strip(text)
  {
    assert s[o - 1..o + |text| + 1] == "\n" + (text + "\n");
    StripSum(text, "\n");
    StripLeftSum("\n", text + "\n");
  }
}
