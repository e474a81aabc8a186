/** Source domains: configured roots, suffix matching, and publisher groups. */
module Domains {
  import opened Counting
  import opened Grouping
  import opened Prelude
  import Binding

  // ----- Folding a configured domain -----

  function StripLeft(s: string): string {
    if s != "" && IsSpace(s[0]) then StripLeft(s[1..]) else s
  }

  function StripRight(s: string): string {
    if s != "" && IsSpace(s[|s| - 1]) then StripRight(s[..|s| - 1]) else s
  }

  function StripDots(s: string): string {
    if s != "" && s[|s| - 1] == '.' then StripDots(s[..|s| - 1]) else s
  }

  /** Case folding of one character: ASCII letters, and every other character whose folding is ASCII text.
      Characters that fold to text outside ASCII are left as they are, which is outside ASCII too. */
  function FoldChar(c: char): string {
    var n := c as int;
    if 'A' <= c <= 'Z' then [(n + 32) as char]
    else if n == 0x17F then "s"
    else if n == 0x212A then "k"
    else if n == 0xDF || n == 0x1E9E then "ss"
    else if n == 0xFB00 then "ff"
    else if n == 0xFB01 then "fi"
    else if n == 0xFB02 then "fl"
    else if n == 0xFB03 then "ffi"
    else if n == 0xFB04 then "ffl"
    else if n == 0xFB05 || n == 0xFB06 then "st"
    else [c]
  }

  /** Case folding. */
  function Lower(s: string): string {
    if s == "" then "" else FoldChar(s[0]) + Lower(s[1..])
  }

  /** `value.strip().casefold().rstrip(".")`. */
  function Fold(value: string): string {
    StripDots(Lower(StripRight(StripLeft(value))))
  }

  ghost predicate Blank(s: string) {
    forall i | 0 <= i < |s| :: IsSpace(s[i])
  }

  /** White space around a name does not matter. */
  lemma FoldIgnoresPadding(a: string, s: string, b: string)
    requires Blank(a) && Blank(b)
    ensures Fold(a + s + b) == Fold(s)
  {
    hide Lower, StripDots, IsSpace;
    if Blank(s) {
      StripBlank(a + s + b);
      StripBlank(s);
    } else {
      StripFront(a, s + b);
      assert a + s + b == a + (s + b);
      StripFrontOf(s, b);
      StripBack(StripLeft(s), b);
    }
  }

  lemma {:induction false} StripBlank(s: string)
    requires Blank(s)
    ensures StripLeft(s) == ""
  {
    if s != "" {
      StripBlank(s[1..]);
    }
  }

  lemma {:induction false} StripFront(a: string, s: string)
    requires Blank(a)
    ensures StripLeft(a + s) == StripLeft(s)
  {
    if a == "" {
      assert a + s == s;
    } else {
      StripFront(a[1..], s);
      assert (a + s)[1..] == a[1..] + s;
    }
  }

  lemma {:induction false} StripFrontOf(s: string, b: string)
    requires !Blank(s)
    ensures StripLeft(s + b) == StripLeft(s) + b
  {
    if IsSpace(s[0]) {
      assert s[1..] != "" by { assert !Blank(s); }
      assert !Blank(s[1..]) by {
        var i :| 0 <= i < |s| && !IsSpace(s[i]);
        assert s[1..][i - 1] == s[i];
      }
      StripFrontOf(s[1..], b);
      assert (s + b)[1..] == s[1..] + b;
    }
  }

  lemma {:induction false} StripBack(s: string, b: string)
    requires Blank(b)
    ensures StripRight(s + b) == StripRight(s)
  {
    if b == "" {
      assert s + b == s;
    } else {
      var n := |b| - 1;
      StripBack(s, b[..n]);
      assert (s + b)[..|s + b| - 1] == s + b[..n];
      assert (s + b)[|s + b| - 1] == b[n];
    }
  }

  /** A letter may be written large or small. */
  ghost predicate SameLetter(c: char, d: char) {
    c == d || ('A' <= c <= 'Z' && d as int == c as int + 32) || ('A' <= d <= 'Z' && c as int == d as int + 32)
  }

  ghost predicate SameLetters(s: string, t: string) {
    |s| == |t| && forall i | 0 <= i < |s| :: SameLetter(s[i], t[i])
  }

  lemma LettersFold(c: char, d: char)
    requires SameLetter(c, d)
    ensures FoldChar(c) == FoldChar(d) && (IsSpace(c) <==> IsSpace(d))
  {
  }

  /** The case of ASCII letters does not matter. */
  lemma FoldIgnoresCase(s: string, t: string)
    requires SameLetters(s, t)
    ensures Fold(s) == Fold(t)
  {
    hide StripLeft, StripRight, StripDots, Lower, SameLetters;
    StripLeftSame(s, t);
    StripRightSame(StripLeft(s), StripLeft(t));
    LowerSame(StripRight(StripLeft(s)), StripRight(StripLeft(t)));
  }

  lemma {:induction false} StripLeftSame(s: string, t: string)
    requires SameLetters(s, t)
    ensures SameLetters(StripLeft(s), StripLeft(t))
  {
    hide IsSpace, SameLetter;
    if s != "" {
      LettersFold(s[0], t[0]);
      StripLeftSame(s[1..], t[1..]);
    }
  }

  lemma {:induction false} StripRightSame(s: string, t: string)
    requires SameLetters(s, t)
    ensures SameLetters(StripRight(s), StripRight(t))
  {
    hide IsSpace, SameLetter;
    if s != "" {
      LettersFold(s[|s| - 1], t[|t| - 1]);
      StripRightSame(s[..|s| - 1], t[..|t| - 1]);
    }
  }

  lemma {:induction false} LowerSame(s: string, t: string)
    requires SameLetters(s, t)
    ensures Lower(s) == Lower(t)
  {
    hide IsSpace, SameLetter, FoldChar;
    if s != "" {
      LettersFold(s[0], t[0]);
      LowerSame(s[1..], t[1..]);
    }
  }

  /** The other characters that fold to ASCII text fold as the letters they stand for. */
  lemma LettersStoodFor()
    ensures FoldChar(0x17F as char) == FoldChar('S') && FoldChar(0x212A as char) == FoldChar('K')
    ensures FoldChar(0xDF as char) == FoldChar(0x1E9E as char) == Lower("SS")
    ensures FoldChar(0xFB00 as char) == Lower("FF") && FoldChar(0xFB01 as char) == Lower("FI")
    ensures FoldChar(0xFB02 as char) == Lower("FL") && FoldChar(0xFB03 as char) == Lower("FFI")
    ensures FoldChar(0xFB04 as char) == Lower("FFL")
    ensures FoldChar(0xFB05 as char) == FoldChar(0xFB06 as char) == Lower("ST")
  {
    LowerThree('S', 'S', 'S');
    LowerThree('F', 'F', 'I');
    LowerThree('F', 'F', 'L');
    LowerThree('F', 'I', 'L');
    LowerThree('F', 'L', 'L');
    LowerThree('S', 'T', 'T');
  }

  lemma LowerThree(a: char, b: char, c: char)
    ensures Lower([a, b]) == FoldChar(a) + FoldChar(b)
    ensures Lower([a, b, c]) == FoldChar(a) + FoldChar(b) + FoldChar(c)
  {
    hide FoldChar;
    assert [a, b][1..] == [b] && [b][1..] == [] && [a, b, c][1..] == [b, c] && [b, c][1..] == [c] && [c][1..] == [];
    assert Lower([c]) == FoldChar(c) && Lower([b]) == FoldChar(b);
    assert Lower([b, c]) == FoldChar(b) + FoldChar(c);
  }

  /** A dot at the end does not matter. */
  lemma FoldIgnoresFinalDot(s: string)
    requires s == "" || !IsSpace(s[|s| - 1])
    ensures Fold(s + ".") == Fold(s)
  {
    hide IsSpace;
    if s != "" {
      assert !Blank(s);
      StripFrontOf(s, ".");
      LeftKeepsEnd(s);
    } else {
      assert s + "." == ".";
    }
    var t := StripLeft(s);
    DotIsNoSpace();
    assert StripLeft(s + ".") == t + ".";
    assert StripRight(t + ".") == t + "." && StripRight(t) == t;
    LowerSnoc(t);
    assert (Lower(t) + ".")[..|Lower(t)|] == Lower(t);
  }

  lemma DotIsNoSpace()
    ensures !IsSpace('.')
  {
  }

  lemma {:induction false} LeftKeepsEnd(s: string)
    requires s != "" && !IsSpace(s[|s| - 1])
    ensures StripLeft(s) != "" && StripLeft(s)[|StripLeft(s)| - 1] == s[|s| - 1]
  {
    hide IsSpace;
    if IsSpace(s[0]) {
      assert s[1..] != "";
      LeftKeepsEnd(s[1..]);
    }
  }

  lemma {:induction false} LowerSnoc(t: string)
    ensures Lower(t + ".") == Lower(t) + "."
  {
    if t == "" {
      assert t + "." == ".";
      assert FoldChar('.') == "." && Lower(".") == "." + Lower("");
    } else {
      hide FoldChar;
      LowerSnoc(t[1..]);
      assert (t + ".")[1..] == t[1..] + ".";
    }
  }

  // ----- Configured roots -----

  predicate AlphaNumeric(c: char) {
    'a' <= c <= 'z' || '0' <= c <= '9'
  }

  /** The label pattern: letters, digits and inner hyphens, 1 to 63 of them (RFC 1035 sections 2.3.1 and
      2.3.4, with a digit allowed in front by RFC 1123 section 2.1). */
  predicate ValidLabel(name: string) {
    && 0 < |name| <= 63
    && AlphaNumeric(name[0]) && AlphaNumeric(name[|name| - 1])
    && forall i | 0 <= i < |name| :: AlphaNumeric(name[i]) || name[i] == '-'
  }

  predicate StandsAt(s: string, part: string, i: nat) {
    i + |part| <= |s| && s[i..i + |part|] == part
  }

  predicate Contains(s: string, part: string) {
    exists i | 0 <= i <= |s| :: StandsAt(s, part, i)
  }

  lemma ContainsHead(s: string, part: string)
    requires part != "" && Contains(s, part)
    ensures part[0] in s
  {
    var i :| 0 <= i <= |s| && StandsAt(s, part, i);
    assert s[i] == s[i..i + |part|][0];
  }

  datatype DomainError = UrlSyntax | BadLabel

  function Labels(s: string): seq<string> {
    Binding.SplitDots(s)
  }

  /** `_normalize_configured_domain`. */
  function Normalize(value: string): Result<string, DomainError> {
    var domain := Fold(value);
    if domain == "" || |domain| > 253 || Contains(domain, "://") || (exists c | c in domain :: c in "/?#@:*") then Err(UrlSyntax)
    else if exists name | name in Labels(domain) :: !ValidLabel(name) then Err(BadLabel)
    else Ok(domain)
  }

  function JoinDots(labels: seq<string>): string
    requires labels != []
  {
    if |labels| == 1 then labels[0] else labels[0] + "." + JoinDots(labels[1..])
  }

  lemma {:induction false} SplitThenJoin(s: string)
    ensures JoinDots(Labels(s)) == s
  {
    if s != "" {
      SplitThenJoin(s[1..]);
      var rest := Labels(s[1..]);
      assert s == [s[0]] + s[1..];
      if s[0] == '.' {
        assert Labels(s)[1..] == rest;
        assert JoinDots(Labels(s)) == "" + "." + JoinDots(rest);
      } else {
        assert Labels(s)[1..] == rest[1..];
      }
    }
  }

  lemma {:induction false} SplitAtDot(a: string, b: string)
    ensures Labels(a + "." + b) == Labels(a) + Labels(b)
  {
    if a == "" {
      assert a + "." + b == "." + b && ("." + b)[1..] == b;
    } else {
      SplitAtDot(a[1..], b);
      assert (a + "." + b)[1..] == a[1..] + "." + b;
      if a[0] == '.' {
        assert [""] + (Labels(a[1..]) + Labels(b)) == [""] + Labels(a[1..]) + Labels(b);
      } else {
        assert (Labels(a[1..]) + Labels(b))[0] == Labels(a[1..])[0];
        assert (Labels(a[1..]) + Labels(b))[1..] == Labels(a[1..])[1..] + Labels(b);
      }
    }
  }

  lemma {:induction false} JoinSplit(front: seq<string>, back: seq<string>)
    requires front != [] && back != []
    ensures JoinDots(front + back) == JoinDots(front) + "." + JoinDots(back)
  {
    if |front| == 1 {
      assert (front + back)[1..] == back;
    } else {
      JoinSplit(front[1..], back);
      assert (front + back)[1..] == front[1..] + back;
    }
  }

  /** Every character of a string stands in one of its labels, or is a dot. */
  lemma {:induction false} CharInLabels(s: string, i: nat)
    requires i < |s|
    ensures s[i] == '.' || exists name | name in Labels(s) :: s[i] in name
  {
    var rest := Labels(s[1..]);
    if s[0] != '.' {
      assert Labels(s)[0] == [s[0]] + rest[0];
      if i == 0 {
        assert s[0] in Labels(s)[0];
      } else {
        CharInLabels(s[1..], i - 1);
        if s[i] != '.' {
          var name :| name in rest && s[i] in name;
          if name == rest[0] {
            assert s[i] in Labels(s)[0];
          } else {
            assert name in Labels(s)[1..];
          }
        }
      }
    } else if i > 0 {
      CharInLabels(s[1..], i - 1);
      assert Labels(s)[1..] == rest;
    }
  }

  /** What is accepted is exactly a name of at most 253 characters made of valid labels: the checks for URL
      syntax and wildcards exclude nothing the label pattern would let through. */
  lemma NormalizeAcceptsIff(value: string)
    ensures Normalize(value).Ok? <==>
              |Fold(value)| <= 253 && forall name | name in Labels(Fold(value)) :: HyphensInside(name)
    ensures Normalize(value).Ok? ==> Normalize(value).value == Fold(value)
  {
    AcceptsLabels(value);
    forall name: string ensures ValidLabel(name) <==> HyphensInside(name) {
      LabelIs(name);
    }
    hide Normalize, Fold, Labels, ValidLabel, HyphensInside;
  }

  /** One to 63 characters, all of them lower-case letters, digits or hyphens, no hyphen at either end. */
  ghost predicate HyphensInside(name: string) {
    && 1 <= |name| && |name| <= 63
    && (forall i | 0 <= i < |name| :: 'a' <= name[i] <= 'z' || '0' <= name[i] <= '9' || name[i] == '-')
    && name[0] != '-' && name[|name| - 1] != '-'
  }

  lemma LabelIs(name: string)
    ensures ValidLabel(name) <==> HyphensInside(name)
  {
  }

  lemma AcceptsLabels(value: string)
    ensures Normalize(value).Ok? <==>
              |Fold(value)| <= 253 && forall name | name in Labels(Fold(value)) :: ValidLabel(name)
    ensures Normalize(value).Ok? ==> Normalize(value).value == Fold(value)
  {
    var domain := Fold(value);
    if domain == "" {
      assert Labels(domain) == [""];
      assert "" in Labels(domain) && !ValidLabel("");
    } else if forall name | name in Labels(domain) :: ValidLabel(name) {
      forall i | 0 <= i < |domain| ensures domain[i] !in "/?#@:*" {
        CharInLabels(domain, i);
      }
      assert ':' !in domain;
      if Contains(domain, "://") {
        ContainsHead(domain, "://");
      }
    }
  }

  // ----- Matching -----

  /** Matching against a folded root. */
  predicate Under(host: string, root: string) {
    root != "" && (host == root || EndsWith(host, "." + root))
  }

  /** `_domain_matches`. */
  predicate DomainMatches(host: string, configured: string) {
    Under(host, Fold(configured))
  }

  /** The last labels of `host` are those of `root`. */
  ghost predicate LabelSuffix(host: string, root: string) {
    exists k | 0 <= k <= |Labels(host)| :: Labels(host)[k..] == Labels(root)
  }

  /** Matching is by whole labels: a root never matches a host that merely ends in the same characters. */
  lemma MatchesByLabels(host: string, root: string)
    requires root != ""
    ensures Under(host, root) <==> LabelSuffix(host, root)
  {
    if Under(host, root) {
      UnderIsSuffix(host, root);
    }
    if LabelSuffix(host, root) {
      SuffixIsUnder(host, root);
    }
  }

  lemma UnderIsSuffix(host: string, root: string)
    requires Under(host, root)
    ensures LabelSuffix(host, root)
  {
    hide Labels;
    if host == root {
      assert Labels(host)[0..] == Labels(root);
    } else {
      var front := host[..|host| - |root| - 1];
      assert host == front + "." + root;
      SplitAtDot(front, root);
      assert Labels(host)[|Labels(front)|..] == Labels(root);
    }
  }

  lemma UnderByFront(host: string, front: string, root: string)
    requires root != "" && host == front + "." + root
    ensures Under(host, root)
  {
    assert host[|host| - |root| - 1..] == "." + root;
  }

  lemma SuffixIsUnder(host: string, root: string)
    requires root != "" && LabelSuffix(host, root)
    ensures Under(host, root)
  {
    assert Labels(root) != [];
    var k :| 0 <= k <= |Labels(host)| && Labels(host)[k..] == Labels(root);
    SplitThenJoin(host);
    SplitThenJoin(root);
    if k == 0 {
      assert Labels(host)[0..] == Labels(host);
    } else {
      hide *;
      assert Labels(host) == Labels(host)[..k] + Labels(host)[k..];
      JoinSplit(Labels(host)[..k], Labels(host)[k..]);
      UnderByFront(host, JoinDots(Labels(host)[..k]), root);
    }
  }

  /** Matching is a partial order on folded names. */
  lemma UnderReflexive(a: string)
    ensures Under(a, a) <==> a != ""
  {
  }

  lemma UnderAntisymmetric(a: string, b: string)
    requires Under(a, b) && Under(b, a)
    ensures a == b
  {
  }

  lemma UnderTransitive(a: string, b: string, c: string)
    requires Under(a, b) && Under(b, c)
    ensures Under(a, c)
  {
    if a != b && b != c {
      var t := "." + c;
      assert a[|a| - |b|..] == b by { assert a[|a| - |b| - 1..][1..] == b; }
      assert a[|a| - |t|..] == a[|a| - |b|..][|b| - |t|..];
    }
  }

  /** The roots of one host form a chain, and no two of them have the same length. */
  lemma RootsOfHostChain(host: string, a: string, b: string)
    requires Under(host, a) && Under(host, b) && |a| <= |b|
    ensures Under(b, a)
    ensures |a| == |b| ==> a == b
  {
    TailOf(host, a);
    TailOf(host, b);
    assert host[|host| - |a|..] == b[|b| - |a|..] == a;
    if |a| < |b| {
      assert host[|host| - |a| - 1] == '.';
      assert b[|b| - |a| - 1] == host[|host| - |b|..][|b| - |a| - 1] == '.';
      assert b[|b| - |a| - 1..] == "." + a;
    }
  }

  lemma TailOf(host: string, root: string)
    requires Under(host, root)
    ensures |root| <= |host| && host[|host| - |root|..] == root
    ensures host != root ==> |root| < |host| && host[|host| - |root| - 1] == '.'
  {
    if host != root {
      var tail := "." + root;
      assert host[|host| - |tail|..] == tail;
      assert host[|host| - |tail|..][1..] == root;
      assert host[|host| - |tail|] == tail[0];
    }
  }

  // ----- Publisher groups -----

  /** The folded roots that match, in the configured order. */
  function MatchingRoots(host: string, roots: seq<string>): (matching: seq<string>)
    ensures forall m | m in matching :: Under(host, m)
    ensures forall m :: m in matching <==> exists r :: r in roots && Fold(r) == m && Under(host, m)
  {
    if roots == [] then []
    else
      assert roots == [roots[0]] + roots[1..];
      (if DomainMatches(host, roots[0]) then [Fold(roots[0])] else []) + MatchingRoots(host, roots[1..])
  }

  function Longest(names: seq<string>): (longest: string)
    requires names != []
    ensures longest in names && forall n | n in names :: |n| <= |longest|
  {
    if |names| == 1 then names[0]
    else
      assert names == [names[0]] + names[1..];
      var rest := Longest(names[1..]);
      if |names[0]| >= |rest| then names[0] else rest
  }

  /** `_source_domain_group`. */
  function GroupOf(host: string, roots: seq<string>): string {
    var matching := MatchingRoots(host, roots);
    if matching == [] then host else Longest(matching)
  }

  /** The group is the one longest matching root, so iterating over a set in any order finds the same. */
  lemma GroupUnique(host: string, roots: seq<string>, longest: string)
    requires longest in MatchingRoots(host, roots) && forall m | m in MatchingRoots(host, roots) :: |m| <= |longest|
    ensures GroupOf(host, roots) == longest
    ensures forall m | m in MatchingRoots(host, roots) :: Under(longest, m)
  {
    var matching := MatchingRoots(host, roots);
    RootsOfHostChain(host, Longest(matching), longest);
    forall m | m in matching ensures Under(longest, m) {
      RootsOfHostChain(host, m, longest);
    }
  }

  lemma GroupIgnoresOrder(host: string, roots: seq<string>, shuffled: seq<string>)
    requires forall r :: r in roots <==> r in shuffled
    ensures GroupOf(host, roots) == GroupOf(host, shuffled)
  {
    var a, b := MatchingRoots(host, roots), MatchingRoots(host, shuffled);
    assert forall m :: m in a <==> m in b;
    assert (a == [] || a[0] in b) && (b == [] || b[0] in a);
    if a != [] {
      GroupUnique(host, roots, Longest(b));
    }
  }

  predicate PassesIncludes(hosts: seq<string>, roots: seq<string>) {
    forall h | h in hosts :: exists r | r in roots :: DomainMatches(h, r)
  }

  function Groups(hosts: seq<string>, roots: seq<string>): set<string> {
    set h | h in hosts :: GroupOf(h, roots)
  }

  function FoldedRoots(roots: seq<string>): set<string> {
    set r | r in roots :: Fold(r)
  }

  lemma {:induction false} FewerFolded(roots: seq<string>)
    ensures |FoldedRoots(roots)| <= |roots|
  {
    if roots != [] {
      assert roots == [roots[0]] + roots[1..];
      FewerFolded(roots[1..]);
      assert FoldedRoots(roots) == {Fold(roots[0])} + FoldedRoots(roots[1..]);
    }
  }

  /** Evidence that passes the include-domains check comes from no more groups than there are roots. */
  lemma GroupsWithinRoots(hosts: seq<string>, roots: seq<string>)
    requires PassesIncludes(hosts, roots)
    ensures Groups(hosts, roots) <= FoldedRoots(roots) && |Groups(hosts, roots)| <= |roots|
  {
    forall h | h in hosts ensures GroupOf(h, roots) in FoldedRoots(roots) {
      var r :| r in roots && DomainMatches(h, r);
      assert Fold(r) in MatchingRoots(h, roots);
    }
    SubsetCardinality(Groups(hosts, roots), FoldedRoots(roots));
    FewerFolded(roots);
  }

  // ----- Domain lists of a benchmark task -----

  /** All normalized, or the first error. */
  function NormalizeAll(values: seq<string>): (r: Result<seq<string>, DomainError>)
    ensures r.Ok? <==> forall v | v in values :: Normalize(v).Ok?
    ensures r.Ok? ==> |r.value| == |values| && forall i | 0 <= i < |values| :: Ok(r.value[i]) == Normalize(values[i])
  {
    if values == [] then Ok([])
    else
      assert values == [values[0]] + values[1..];
      var first, rest := Normalize(values[0]), NormalizeAll(values[1..]);
      if first.Err? then Err(first.error)
      else if rest.Err? then Err(rest.error)
      else Ok([first.value] + rest.value)
  }

  predicate Overlap(a: string, b: string) {
    DomainMatches(a, b) || DomainMatches(b, a)
  }

  predicate NoOverlap(names: seq<string>) {
    forall i, j | 0 <= i < j < |names| :: !Overlap(names[i], names[j])
  }

  datatype TaskError =
    | InvalidDomain
    | RepeatedInclude
    | RepeatedExclude
    | IncludedAndExcluded
    | RootsRequired
    | MinimumTooHigh
    | OverlappingRoots

  /** The first rule the lists break, if any; `minimum` is 0 without a contract that counts domains. */
  function FirstError(include_: seq<string>, exclude: seq<string>, minimum: nat): Option<TaskError> {
    var included, excluded := NormalizeAll(include_), NormalizeAll(exclude);
    if included.Err? || excluded.Err? then Some(InvalidDomain)
    else if !AllDistinct(included.value) then Some(RepeatedInclude)
    else if !AllDistinct(excluded.value) then Some(RepeatedExclude)
    else if exists d | d in included.value :: d in excluded.value then Some(IncludedAndExcluded)
    else if minimum == 0 then None
    else if include_ == [] then Some(RootsRequired)
    else if minimum > |include_| then Some(MinimumTooHigh)
    else if !NoOverlap(included.value) then Some(OverlappingRoots)
    else None
  }

  /** The domain part of a benchmark task's validator. */
  method ValidateDomains(include_: seq<string>, exclude: seq<string>, minimum: nat) returns (error: Option<TaskError>)
    ensures error == FirstError(include_, exclude, minimum)
    ensures error.None? <==> ValidDomains(include_, exclude, minimum)
  {
    hide NormalizeAll, AllDistinct, NoOverlap;
    var included, excluded := NormalizeAll(include_), NormalizeAll(exclude);
    if included.Err? || excluded.Err? {
      return Some(InvalidDomain);
    }
    if !AllDistinct(included.value) {
      return Some(RepeatedInclude);
    }
    if !AllDistinct(excluded.value) {
      return Some(RepeatedExclude);
    }
    if exists d | d in included.value :: d in excluded.value {
      return Some(IncludedAndExcluded);
    }
    if minimum > 0 {
      if included.value == [] {
        return Some(RootsRequired);
      }
      if minimum > |included.value| {
        return Some(MinimumTooHigh);
      }
      var overlapping := SomeOverlap(included.value);
      if overlapping {
        return Some(OverlappingRoots);
      }
    }
    return None;
  }

  /** The pairwise comparison of the roots. */
  method SomeOverlap(names: seq<string>) returns (found: bool)
    ensures found <==> !NoOverlap(names)
  {
    hide Overlap;
    for i := 0 to |names|
      invariant forall x, y | 0 <= x < y < |names| && x < i :: !Overlap(names[x], names[y])
    {
      for j := i + 1 to |names|
        invariant forall x, y | 0 <= x < y < |names| && (x < i || (x == i && y < j)) :: !Overlap(names[x], names[y])
      {
        if Overlap(names[i], names[j]) {
          return true;
        }
      }
    }
    return false;
  }

  predicate ValidDomains(include_: seq<string>, exclude: seq<string>, minimum: nat) {
    var included, excluded := NormalizeAll(include_), NormalizeAll(exclude);
    && included.Ok? && excluded.Ok?
    && AllDistinct(included.value) && AllDistinct(excluded.value)
    && (forall d | d in included.value :: d !in excluded.value)
    && (minimum > 0 ==> 0 < minimum <= |include_| && NoOverlap(included.value))
  }

  /** Some listed name cannot be normalized. */
  predicate SomeInvalid(names: seq<string>) {
    exists v | v in names :: Normalize(v).Err?
  }

  /** Two listed names fold to one domain. */
  predicate SomeRepeated(names: seq<string>) {
    exists i, j | 0 <= i < j < |names| :: Fold(names[i]) == Fold(names[j])
  }

  predicate SomeShared(include_: seq<string>, exclude: seq<string>) {
    exists i, j | 0 <= i < |include_| && 0 <= j < |exclude| :: Fold(include_[i]) == Fold(exclude[j])
  }

  predicate SomeNested(names: seq<string>) {
    exists i, j | 0 <= i < |names| && 0 <= j < |names| && i != j :: Under(Fold(names[i]), Fold(names[j]))
  }

  /** Each rule is reported exactly when the lists break it and none of the rules before it. */
  lemma ErrorIs(include_: seq<string>, exclude: seq<string>, minimum: nat)
    ensures var e := FirstError(include_, exclude, minimum);
            var invalid := SomeInvalid(include_) || SomeInvalid(exclude);
            var repeated := invalid || SomeRepeated(include_);
            var unclear := repeated || SomeRepeated(exclude);
            var clash := unclear || SomeShared(include_, exclude);
            && (e == Some(InvalidDomain) <==> invalid)
            && (e == Some(RepeatedInclude) <==> !invalid && SomeRepeated(include_))
            && (e == Some(RepeatedExclude) <==> !repeated && SomeRepeated(exclude))
            && (e == Some(IncludedAndExcluded) <==> !unclear && SomeShared(include_, exclude))
            && (e == Some(RootsRequired) <==> !clash && minimum > 0 && include_ == [])
            && (e == Some(MinimumTooHigh) <==> !clash && include_ != [] && minimum > |include_|)
            && (e == Some(OverlappingRoots) <==> !clash && 0 < minimum <= |include_| && SomeNested(include_))
  {
    hide NoOverlap, Normalize, SomeNested;
    AllInvalid(include_);
    AllInvalid(exclude);
    if !SomeInvalid(include_) && !SomeInvalid(exclude) {
      AllNormalized(include_);
      AllNormalized(exclude);
      NestedIff(include_);
      var a, b := NormalizeAll(include_).value, NormalizeAll(exclude).value;
      hide NormalizeAll, Fold;
      assert SomeRepeated(include_) <==> !AllDistinct(a);
      assert SomeRepeated(exclude) <==> !AllDistinct(b);
      assert SomeShared(include_, exclude) <==> exists d | d in a :: d in b by {
        SharedIff(include_, exclude, a, b);
      }
    }
  }

  lemma SharedIff(include_: seq<string>, exclude: seq<string>, a: seq<string>, b: seq<string>)
    requires |a| == |include_| && forall i | 0 <= i < |a| :: a[i] == Fold(include_[i])
    requires |b| == |exclude| && forall i | 0 <= i < |b| :: b[i] == Fold(exclude[i])
    ensures SomeShared(include_, exclude) <==> exists d | d in a :: d in b
  {
    hide Fold;
    if i, j :| 0 <= i < |include_| && 0 <= j < |exclude| && Fold(include_[i]) == Fold(exclude[j]) {
      assert a[i] in a && b[j] in b;
    }
    if d :| d in a && d in b {
      var i :| 0 <= i < |a| && a[i] == d;
      var j :| 0 <= j < |b| && b[j] == d;
      assert Fold(include_[i]) == Fold(exclude[j]);
    }
  }

  lemma AllInvalid(names: seq<string>)
    ensures NormalizeAll(names).Err? <==> SomeInvalid(names)
  {
    hide Normalize;
  }

  lemma AllNormalized(names: seq<string>)
    requires !SomeInvalid(names)
    ensures NormalizeAll(names).Ok? && |NormalizeAll(names).value| == |names|
    ensures forall i | 0 <= i < |names| ::
              NormalizeAll(names).value[i] == Fold(names[i]) && Normalize(names[i]) == Ok(Fold(names[i]))
  {
    AllInvalid(names);
    hide Normalize, Fold;
    forall i | 0 <= i < |names| ensures Normalize(names[i]) == Ok(Fold(names[i])) {
      assert Normalize(names[i]).Ok?;
      AcceptsLabels(names[i]);
    }
  }

  lemma NestedIff(names: seq<string>)
    requires !SomeInvalid(names)
    ensures NormalizeAll(names).Ok? && (NoOverlap(NormalizeAll(names).value) <==> !SomeNested(names))
  {
    AllNormalized(names);
    var all := NormalizeAll(names).value;
    hide NormalizeAll, Fold, Under, Normalize;
    forall i, j | 0 <= i < |names| && 0 <= j < |names|
      ensures DomainMatches(all[i], all[j]) <==> Under(Fold(names[i]), Fold(names[j]))
    {
      NormalizedIsFolded(names[j]);
    }
    if SomeNested(names) {
      var i, j :| 0 <= i < |names| && 0 <= j < |names| && i != j && Under(Fold(names[i]), Fold(names[j]));
      assert Overlap(all[i], all[j]) && Overlap(all[j], all[i]);
    }
    if !NoOverlap(all) {
      var i, j :| 0 <= i < j < |all| && Overlap(all[i], all[j]);
      assert Under(Fold(names[i]), Fold(names[j])) || Under(Fold(names[j]), Fold(names[i]));
    }
  }

  /** Folding leaves a normalized name as it is. */
  lemma NormalizedIsFolded(value: string)
    requires Normalize(value).Ok?
    ensures Fold(Normalize(value).value) == Normalize(value).value
  {
    var d := Normalize(value).value;
    AcceptsLabels(value);
    var names := Labels(d);
    assert forall k | 0 <= k < |names| :: names[k] in names;
    assert d != "" by { assert Labels("") == [""] && "" in Labels(""); }
    SplitThenJoin(d);
    JoinEnds(names);
    forall i | 0 <= i < |d| ensures AlphaNumeric(d[i]) || d[i] == '-' || d[i] == '.' {
      CharInLabels(d, i);
    }
    NothingToFold(d);
  }

  lemma NothingToFold(d: string)
    requires d != "" && AlphaNumeric(d[0]) && AlphaNumeric(d[|d| - 1])
    requires forall i | 0 <= i < |d| :: AlphaNumeric(d[i]) || d[i] == '-' || d[i] == '.'
    ensures Fold(d) == d
  {
    assert StripRight(StripLeft(d)) == d;
    LowerCaseStays(d);
  }

  lemma {:induction false} LowerCaseStays(d: string)
    requires forall i | 0 <= i < |d| :: AlphaNumeric(d[i]) || d[i] == '-' || d[i] == '.'
    ensures Lower(d) == d
  {
    if d != "" {
      assert FoldChar(d[0]) == [d[0]];
      LowerCaseStays(d[1..]);
    }
  }

  /** A name joined from non-empty labels starts with its first label's first character and ends with its
      last label's last one. */
  lemma {:induction false} JoinEnds(names: seq<string>)
    requires names != [] && forall k | 0 <= k < |names| :: names[k] != ""
    ensures JoinDots(names) != "" && JoinDots(names)[0] == names[0][0]
    ensures Last(JoinDots(names)) == Last(names[|names| - 1])
  {
    if |names| > 1 {
      JoinEnds(names[1..]);
      assert names[1..][|names| - 2] == names[|names| - 1];
    }
  }

  function Last(s: string): char
    requires s != ""
  {
    s[|s| - 1]
  }

  /** With validated roots a host is under at most one of them. */
  lemma AtMostOneRoot(include_: seq<string>, exclude: seq<string>, minimum: nat, host: string, i: nat, j: nat)
    requires ValidDomains(include_, exclude, minimum) && minimum > 0 && i < j < |include_|
    ensures !(DomainMatches(host, include_[i]) && DomainMatches(host, include_[j]))
  {
    hide Fold, Normalize, Labels, Under;
    var names := NormalizeAll(include_).value;
    AcceptsLabels(include_[i]);
    AcceptsLabels(include_[j]);
    NormalizedIsFolded(include_[i]);
    NormalizedIsFolded(include_[j]);
    assert !Overlap(names[i], names[j]);
    if DomainMatches(host, include_[i]) && DomainMatches(host, include_[j]) {
      if |names[i]| <= |names[j]| {
        RootsOfHostChain(host, names[i], names[j]);
      } else {
        RootsOfHostChain(host, names[j], names[i]);
      }
    }
  }

  /** So counting groups counts the roots that some evidence comes from. */
  lemma GroupsAreRootsReached(include_: seq<string>, exclude: seq<string>, minimum: nat, hosts: seq<string>)
    requires ValidDomains(include_, exclude, minimum) && minimum > 0 && PassesIncludes(hosts, include_)
    ensures Groups(hosts, include_) == set r | r in include_ && (exists h | h in hosts :: DomainMatches(h, r)) :: Fold(r)
  {
    hide Fold, Under, ValidDomains;
    forall h, r | h in hosts && r in include_ && DomainMatches(h, r) ensures GroupOf(h, include_) == Fold(r) {
      OnlyRoot(include_, exclude, minimum, h, r);
    }
    forall h | h in hosts ensures exists r | r in include_ :: DomainMatches(h, r) && GroupOf(h, include_) == Fold(r) {
      var r :| r in include_ && DomainMatches(h, r);
    }
  }

  lemma OnlyRoot(include_: seq<string>, exclude: seq<string>, minimum: nat, h: string, r: string)
    requires ValidDomains(include_, exclude, minimum) && minimum > 0 && r in include_ && DomainMatches(h, r)
    ensures GroupOf(h, include_) == Fold(r)
  {
    hide *;
    var i := Position(include_, r);
    var j := GroupRoot(h, include_, r);
    if i < j {
      AtMostOneRoot(include_, exclude, minimum, h, i, j);
    } else if j < i {
      AtMostOneRoot(include_, exclude, minimum, h, j, i);
    }
  }

  lemma Position<T>(s: seq<T>, x: T) returns (i: nat)
    requires x in s
    ensures i < |s| && s[i] == x
  {
    i :| 0 <= i < |s| && s[i] == x;
  }

  /** The group of a host that some root matches is the folding of a root that matches it. */
  lemma GroupRoot(h: string, roots: seq<string>, r: string) returns (j: nat)
    requires r in roots && DomainMatches(h, r)
    ensures j < |roots| && DomainMatches(h, roots[j]) && GroupOf(h, roots) == Fold(roots[j])
  {
    hide Fold, Under;
    assert Fold(r) in MatchingRoots(h, roots);
    var g := GroupOf(h, roots);
    var r' :| r' in roots && Fold(r') == g && Under(h, g);
    j := Position(roots, r');
  }
}
