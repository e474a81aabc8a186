/** `re.findall` for evidence citations of the form `[ev_x]` or `[^ev_x]`. */
module Citations {
  import opened Prelude
  import opened Secrets

  /** End of the run of token characters that starts at `j`. */
  function RunEnd(s: string, j: nat): (e: nat)
    requires j <= |s|
    ensures j <= e <= |s|
    ensures forall m | j <= m < e :: TokenChar(s[m])
    ensures e < |s| ==> !TokenChar(s[e])
    decreases |s| - j
  {
    if j < |s| && TokenChar(s[j]) then RunEnd(s, j + 1) else j
  }

  /** A match at one position: the cited id and where the search resumes. */
  datatype Match = Match(id: string, next: nat)

  function IdStart(s: string, i: nat): nat {
    if i + 1 < |s| && s[i + 1] == '^' then i + 2 else i + 1
  }

  function CitationAt(s: string, i: nat): (m: Option<Match>)
    ensures m.Some? ==> i < m.value.next <= |s|
  {
    if i < |s| && s[i] == '[' then
      var b := IdStart(s, i);
      if b + 3 <= |s| && s[b] == 'e' && s[b + 1] == 'v' && s[b + 2] == '_' then
        var e := RunEnd(s, b + 3);
        if e > b + 3 && e < |s| && s[e] == ']' then Some(Match(s[b..e], e + 1)) else None
      else
        None
    else
      None
  }

  /** The ids cited from position `i` on, left to right and without overlap. */
  function FindFrom(s: string, i: nat): seq<string>
    requires i <= |s|
    decreases |s| - i
  {
    if i == |s| then []
    else
      match CitationAt(s, i)
      case Some(m) => [m.id] + FindFrom(s, m.next)
      case None => FindFrom(s, i + 1)
  }

  function FindCitations(s: string): seq<string> {
    FindFrom(s, 0)
  }

  lemma RunEndUnique(s: string, j: nat, e: nat)
    requires j <= e <= |s| && forall m | j <= m < e :: TokenChar(s[m])
    requires e < |s| ==> !TokenChar(s[e])
    ensures RunEnd(s, j) == e
  {
  }

  predicate WellFormedId(id: string) {
    |id| > 3 && id[0] == 'e' && id[1] == 'v' && id[2] == '_' && forall m | 3 <= m < |id| :: TokenChar(id[m])
  }

  /** At `i` stands `[id]` or `[^id]`. */
  ghost predicate CitedAt(s: string, id: string, i: nat) {
    || (i + |id| + 2 <= |s| && s[i..i + |id| + 2] == "[" + id + "]")
    || (i + |id| + 3 <= |s| && s[i..i + |id| + 3] == "[^" + id + "]")
  }

  lemma ThreeParts(a: string, b: string, c: string, x: string, y: string, z: string)
    requires |a| == |x| && |b| == |y| && |c| == |z|
    ensures a + b + c == x + y + z <==> a == x && b == y && c == z
  {
    if a + b + c == x + y + z {
      assert a == (a + b + c)[..|a|] == x;
      assert b == (a + b + c)[|a|..|a| + |b|] == y;
      assert c == (a + b + c)[|a| + |b|..] == z;
    }
  }

  lemma ThreeSlices(s: string, i: nat, b: nat, e: nat)
    requires i <= b <= e < |s|
    ensures s[i..e + 1] == s[i..b] + s[b..e] + [s[e]]
  {
  }

  /** A bracketed id, piece by piece. */
  lemma BracketedIff(s: string, front: string, id: string, i: nat)
    requires i + |front| + |id| < |s|
    ensures s[i..i + |front| + |id| + 1] == front + id + "]"
            <==> && s[i..i + |front|] == front && s[i + |front|..i + |front| + |id|] == id && s[i + |front| + |id|] == ']'
  {
    var b, e := i + |front|, i + |front| + |id|;
    ThreeSlices(s, i, b, e);
    ThreeParts(s[i..b], s[b..e], [s[e]], front, id, "]");
    assert [s[e]] == "]" <==> s[e] == ']';
  }

  /** The id cited at `i` starts where the scanner looks for it. */
  lemma CitedAtStart(s: string, id: string, i: nat)
    requires WellFormedId(id)
    ensures CitedAt(s, id, i) <==>
              && i < |s| && s[i] == '[' && IdStart(s, i) + |id| < |s|
              && s[IdStart(s, i)..IdStart(s, i) + |id|] == id && s[IdStart(s, i) + |id|] == ']'
  {
    if i + 1 + |id| < |s| {
      BracketedIff(s, "[", id, i);
      assert s[i..i + 1] == "[" <==> s[i] == '[';
      assert s[i + 1..i + 1 + |id|] == id ==> s[i + 1] == id[0];
    }
    if i + 2 + |id| < |s| {
      BracketedIff(s, "[^", id, i);
      assert s[i..i + 2] == [s[i], s[i + 1]];
    }
    hide WellFormedId;
  }

  /** A match at a position is a well-formed id cited there. */
  lemma CitationAtIff(s: string, i: nat, id: string)
    ensures CitationAt(s, i).Some? && CitationAt(s, i).value.id == id <==> WellFormedId(id) && CitedAt(s, id, i)
  {
    if CitationAt(s, i).Some? && CitationAt(s, i).value.id == id {
      MatchWellFormed(s, i);
      CitedAtStart(s, id, i);
    }
    if WellFormedId(id) && CitedAt(s, id, i) {
      CitedAtStart(s, id, i);
      IdMatches(s, id, i, IdStart(s, i));
    }
  }

  lemma MatchWellFormed(s: string, i: nat)
    requires CitationAt(s, i).Some?
    ensures var id := CitationAt(s, i).value.id;
            && WellFormedId(id) && i < |s| && s[i] == '[' && IdStart(s, i) + |id| < |s|
            && s[IdStart(s, i)..IdStart(s, i) + |id|] == id && s[IdStart(s, i) + |id|] == ']'
  {
    hide TokenChar;
    var b := IdStart(s, i);
    var e := RunEnd(s, b + 3);
    var id := s[b..e];
    assert CitationAt(s, i).value.id == id && id[0] == s[b] && id[1] == s[b + 1] && id[2] == s[b + 2];
    forall m | 3 <= m < |id| ensures TokenChar(id[m]) {
      assert id[m] == s[b + m];
    }
  }

  lemma IdMatches(s: string, id: string, i: nat, b: nat)
    requires WellFormedId(id) && i < |s| && s[i] == '[' && b == IdStart(s, i)
    requires b + |id| < |s| && s[b..b + |id|] == id && s[b + |id|] == ']'
    ensures CitationAt(s, i).Some? && CitationAt(s, i).value.id == id
  {
    forall m | b + 3 <= m < b + |id| ensures TokenChar(s[m]) {
      assert id[m - b] == s[b..b + |id|][m - b];
    }
    assert s[b] == id[0] && s[b + 1] == id[1] && s[b + 2] == id[2];
    RunEndUnique(s, b + 3, b + |id|);
  }

  /** The ids cited at the positions from `i` on, each looked at by itself. */
  function IdsFrom(s: string, i: nat): seq<string>
    requires i <= |s|
    decreases |s| - i
  {
    if i == |s| then []
    else (if CitationAt(s, i).Some? then [CitationAt(s, i).value.id] else []) + IdsFrom(s, i + 1)
  }

  /** No match starts inside another, so skipping each match misses none. */
  lemma {:induction false} ScanMissesNone(s: string, i: nat)
    requires i <= |s|
    ensures FindFrom(s, i) == IdsFrom(s, i)
    decreases |s| - i
  {
    hide CitationAt;
    if i < |s| {
      var next := if CitationAt(s, i).Some? then CitationAt(s, i).value.next else i + 1;
      ScanMissesNone(s, next);
      NoMatchInside(s, i, next, i + 1);
    }
  }

  lemma {:induction false} NoMatchInside(s: string, i: nat, next: nat, j: nat)
    requires i < |s| && i < j <= next <= |s|
    requires next == if CitationAt(s, i).Some? then CitationAt(s, i).value.next else i + 1
    ensures IdsFrom(s, j) == IdsFrom(s, next)
    decreases next - j
  {
    if j < next {
      assert s[j] != '[' by {
        var b := IdStart(s, i);
        var e := RunEnd(s, b + 3);
        assert b + 3 <= j < e ==> TokenChar(s[j]);
        assert !TokenChar('[');
      }
      NoMatchInside(s, i, next, j + 1);
    }
  }

  /** An id is found exactly when it is well formed and cited somewhere in the text. */
  lemma CitedIff(s: string, id: string)
    ensures id in FindCitations(s) <==> WellFormedId(id) && exists i: nat :: CitedAt(s, id, i)
  {
    ScanMissesNone(s, 0);
    FoundFrom(s, 0, id);
    hide CitationAt, IdsFrom, FindFrom, CitedAt, WellFormedId;
    if i: nat :| CitedAt(s, id, i) {
      CitedInside(s, id, i);
      CitationAtIff(s, i, id);
    }
    if i: nat :| i < |s| && CitationAt(s, i).Some? && CitationAt(s, i).value.id == id {
      CitationAtIff(s, i, id);
    }
  }

  lemma CitedInside(s: string, id: string, i: nat)
    requires CitedAt(s, id, i)
    ensures i < |s|
  {
  }

  lemma {:induction false} FoundFrom(s: string, i: nat, id: string)
    requires i <= |s|
    ensures id in IdsFrom(s, i) <==> exists j: nat :: i <= j < |s| && CitationAt(s, j).Some? && CitationAt(s, j).value.id == id
    decreases |s| - i
  {
    hide CitationAt;
    if i < |s| {
      FoundFrom(s, i + 1, id);
    }
  }

  /** Text that starts with a space cannot change a match that starts before it. */
  lemma AppendedTextIsSeparate(s: string, t: string, i: nat)
    requires t != [] && t[0] == ' ' && i < |s|
    ensures CitationAt(s + t, i) == CitationAt(s, i)
  {
    var u := s + t;
    assert u[|s|] == ' ' && u[i] == s[i];
    var b := IdStart(s, i);
    if s[i] == '[' && b + 3 <= |s| {
      assert IdStart(u, i) == b;
      var e := RunEnd(s, b + 3);
      RunEndUnique(u, b + 3, e);
      assert u[b..e] == s[b..e];
    }
  }

  lemma {:induction false} FindAppended(s: string, t: string, i: nat)
    requires t != [] && t[0] == ' ' && i <= |s|
    ensures FindFrom(s + t, i) == FindFrom(s, i) + FindFrom(s + t, |s|)
    decreases |s| - i
  {
    if i < |s| {
      AppendedTextIsSeparate(s, t, i);
      FindAppended(s, t, if CitationAt(s, i).Some? then CitationAt(s, i).value.next else i + 1);
    }
  }

  /** Text consisting of a space and one citation. */
  function CitationText(id: string): string {
    [' ', '['] + id + [']']
  }

  lemma CitationTextAt(s: string, id: string)
    requires |id| > 3
    ensures var u := s + CitationText(id);
            && |u| == |s| + |id| + 3
            && u[|s|] == ' ' && u[|s| + 1] == '[' && u[|u| - 1] == ']'
            && u[|s| + 2..|u| - 1] == id
  {
    var t := CitationText(id);
    assert t[2..|t| - 1] == id;
    assert (s + t)[|s|..] == t;
  }

  /** A well-formed citation at the very end of the text is found. */
  lemma FinalCitation(u: string, i: nat)
    requires i + 5 < |u| && u[i] == '[' && u[|u| - 1] == ']'
    requires WellFormedId(u[i + 1..|u| - 1])
    ensures FindFrom(u, i) == [u[i + 1..|u| - 1]]
  {
    var id := u[i + 1..|u| - 1];
    forall m | i + 4 <= m < |u| - 1 ensures TokenChar(u[m]) {
      assert u[m] == id[m - i - 1];
    }
    RunEndUnique(u, i + 4, |u| - 1);
    assert u[i + 1] == id[0] && u[i + 2] == id[1] && u[i + 3] == id[2];
    assert CitationAt(u, i) == Some(Match(id, |u|));
  }

  const INJECTED_ID := "ev_injected_missing"

  lemma InjectedIdWellFormed()
    ensures WellFormedId(INJECTED_ID)
  {
  }

  lemma NoCitationAt(u: string, i: nat)
    requires i < |u| && u[i] != '['
    ensures FindFrom(u, i) == FindFrom(u, i + 1)
  {
  }

  lemma CitationAfterSpace(u: string, n: nat, id: string)
    requires |u| == n + |id| + 3 && u[n] == ' ' && u[n + 1] == '[' && u[|u| - 1] == ']'
    requires u[n + 2..|u| - 1] == id && WellFormedId(id)
    ensures FindFrom(u, n) == [id]
  {
    assert |id| > 3;
    hide *;
    NoCitationAt(u, n);
    FinalCitation(u, n + 1);
  }

  /** The corrupted report cites what the report cited, and the appended id. */
  lemma CorruptedReportCitations(report: string, id: string)
    requires WellFormedId(id)
    ensures FindCitations(report + CitationText(id)) == FindCitations(report) + [id]
  {
    assert |id| > 3 && CitationText(id)[0] == ' ';
    hide WellFormedId, CitationText, FindFrom;
    FindAppended(report, CitationText(id), 0);
    CitationTextAt(report, id);
    CitationAfterSpace(report + CitationText(id), |report|, id);
  }
}
