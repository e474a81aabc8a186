/** The credential patterns of the evaluator, as searches for a matching stretch of a string. */
module Secrets {
  import opened Prelude
  import opened Json

  predicate Alnum(c: char) {
    'a' <= c <= 'z' || 'A' <= c <= 'Z' || '0' <= c <= '9'
  }

  predicate WordChar(c: char) {
    Alnum(c) || c == '_'
  }

  predicate TokenChar(c: char) {
    WordChar(c) || c == '-'
  }

  /** The characters after `Bearer`: `[A-Za-z0-9._~+/=-]`. */
  predicate BearerChar(c: char) {
    TokenChar(c) || c == '.' || c == '~' || c == '+' || c == '/' || c == '='
  }

  /** The regular-expression assertion `\b` at position `i`. */
  predicate Boundary(s: string, i: nat)
    requires i <= |s|
  {
    (i > 0 && WordChar(s[i - 1])) != (i < |s| && WordChar(s[i]))
  }

  function Lower(c: char): char {
    if 'A' <= c <= 'Z' then c - 'A' + 'a' else c
  }

  predicate IsBearer(word: string) {
    && |word| == 6
    && Lower(word[0]) == 'b' && Lower(word[1]) == 'e' && Lower(word[2]) == 'a'
    && Lower(word[3]) == 'r' && Lower(word[4]) == 'e' && Lower(word[5]) == 'r'
  }

  predicate TokenRun(s: string, i: nat, j: nat)
    requires i <= j <= |s|
  {
    j - i >= 8 && forall m | i <= m < j :: TokenChar(s[m])
  }

  /** `sk-`, `sk-ant-`, `sk-proj-` or `sk-svcacct-` followed by at least eight token characters. */
  predicate ApiKeyAt(s: string, i: nat, j: nat, k: nat)
    requires i <= j <= k <= |s|
  {
    && s[i..j] in {"sk-", "sk-ant-", "sk-proj-", "sk-svcacct-"}
    && TokenRun(s, j, k) && Boundary(s, i) && Boundary(s, k)
  }

  /** `ghp_`, `gho_`, `ghu_`, `ghs_` or `ghr_` followed by at least eight token characters. */
  predicate GitHubTokenAt(s: string, i: nat, j: nat, k: nat)
    requires i <= j <= k <= |s|
  {
    && s[i..j] in {"ghp_", "gho_", "ghu_", "ghs_", "ghr_"}
    && TokenRun(s, j, k) && Boundary(s, i) && Boundary(s, k)
  }

  /** `Bearer`, white space, and at least eight characters of a bearer token. */
  predicate BearerAt(s: string, i: nat, j: nat, k: nat)
    requires i <= j <= k <= |s|
  {
    && j - i >= 7 && IsBearer(s[i..i + 6]) && (forall m | i + 6 <= m < j :: IsSpace(s[m]))
    && k - j >= 8 && (forall m | j <= m < k :: BearerChar(s[m]))
    && Boundary(s, i) && Boundary(s, k)
  }

  /** `eyJ` and two more runs, separated by dots: a JSON web token. */
  predicate WebTokenAt(s: string, i: nat, j: nat, k: nat, l: nat)
    requires i <= j <= k <= l <= |s|
  {
    && j - i >= 3 && s[i..i + 3] == "eyJ" && TokenRun(s, i + 3, j)
    && j < k && s[j] == '.' && TokenRun(s, j + 1, k)
    && k < l && s[k] == '.' && TokenRun(s, k + 1, l)
    && Boundary(s, i) && Boundary(s, l)
  }

  /** Some credential pattern occurs in `s`. */
  predicate Matches(s: string) {
    || (exists i, j, k | 0 <= i <= j <= k <= |s| :: ApiKeyAt(s, i, j, k))
    || (exists i, j, k | 0 <= i <= j <= k <= |s| :: GitHubTokenAt(s, i, j, k))
    || (exists i, j, k | 0 <= i <= j <= k <= |s| :: BearerAt(s, i, j, k))
    || (exists i, j, k, l | 0 <= i <= j <= k <= l <= |s| :: WebTokenAt(s, i, j, k, l))
  }

  // ----- Serialized text -----

  function HexDigit(d: nat): char
    requires d < 16
  {
    "0123456789abcdef"[d]
  }

  /** How `json.dumps(..., ensure_ascii=False)` writes a character inside a string. */
  function EscapedChar(c: char): string {
    var n := c as int;
    if c == '"' then "\\\""
    else if c == '\\' then "\\\\"
    else if c == '\n' then "\\n"
    else if c == '\r' then "\\r"
    else if c == '\t' then "\\t"
    else if n == 8 then "\\b"
    else if n == 12 then "\\f"
    else if n < 32 then "\\u00" + [HexDigit(n / 16), HexDigit(n % 16)]
    else [c]
  }

  function Escaped(s: string): string {
    if s == "" then "" else EscapedChar(s[0]) + Escaped(s[1..])
  }

  /** A string leaf is credential-shaped: a pattern occurs in it as the serialized text holds it. */
  predicate Secret(s: string) {
    Matches(Escaped(s))
  }

  /** Some string leaf or key of a JSON value is credential-shaped. */
  predicate JsonSecret(j: Json)
    decreases j
  {
    match j
    case JStr(s) => Secret(s)
    case JArr(items) => exists x | x in items :: JsonSecret(x)
    case JObj(fields) => exists k | k in fields :: Secret(k) || JsonSecret(fields[k])
    case _ => false
  }

  /** The string leaves and keys of a JSON value. */
  ghost function Texts(j: Json): set<string>
    decreases j
  {
    match j
    case JStr(s) => {s}
    case JArr(items) => set x, s | x in items && s in Texts(x) :: s
    case JObj(fields) => fields.Keys + set k, s | k in fields && s in Texts(fields[k]) :: s
    case _ => {}
  }

  /** A JSON value holds a secret exactly when one of its strings, at any depth, does. */
  lemma {:induction false} JsonSecretIff(j: Json)
    ensures JsonSecret(j) <==> exists s :: s in Texts(j) && Secret(s)
    decreases j
  {
    hide Secret;
    match j {
      case JStr(s) =>
      case JArr(items) =>
        forall x | x in items ensures JsonSecret(x) <==> exists s :: s in Texts(x) && Secret(s) {
          JsonSecretIff(x);
        }
      case JObj(fields) =>
        forall k | k in fields ensures JsonSecret(fields[k]) <==> exists s :: s in Texts(fields[k]) && Secret(s) {
          JsonSecretIff(fields[k]);
        }
      case _ =>
    }
  }

  /** Letters, digits and underscores escape to themselves, and without a dash, a dot, a `g` or a `b` among them
      no pattern can occur. */
  lemma PlainNameIsNoSecret(s: string)
    requires forall m | 0 <= m < |s| :: WordChar(s[m]) && s[m] != 'g' && s[m] != 'b' && s[m] != 'B'
    ensures !Secret(s)
  {
    WordsEscape(s);
    forall i, j, k | 0 <= i <= j <= k <= |s| ensures !ApiKeyAt(s, i, j, k) && !GitHubTokenAt(s, i, j, k) {
      NoPrefix(s, i, j, k);
    }
    forall i, j, k | 0 <= i <= j <= k <= |s| ensures !BearerAt(s, i, j, k) {
      assert j - i >= 7 ==> s[i..i + 6][0] == s[i];
    }
    forall i, j, k, l | 0 <= i <= j <= k <= l <= |s| ensures !WebTokenAt(s, i, j, k, l) {
      assert j < |s| ==> WordChar(s[j]);
    }
  }

  lemma NoPrefix(s: string, i: nat, j: nat, k: nat)
    requires i <= j <= k <= |s| && forall m | 0 <= m < |s| :: WordChar(s[m]) && s[m] != 'g'
    ensures !ApiKeyAt(s, i, j, k) && !GitHubTokenAt(s, i, j, k)
  {
    assert j - i >= 1 ==> s[i..j][0] == s[i];
    assert j - i >= 3 ==> s[i..j][2] == s[i + 2];
  }

  lemma {:induction false} WordsEscape(s: string)
    requires forall m | 0 <= m < |s| :: WordChar(s[m])
    ensures Escaped(s) == s
  {
    hide EscapedChar, WordChar;
    if s != "" {
      WordEscapes(s[0]);
      WordsEscape(s[1..]);
    }
  }

  lemma WordEscapes(c: char)
    requires WordChar(c)
    ensures EscapedChar(c) == [c]
  {
  }

  // ----- Searching leaf by leaf -----

  /** `s` stands at position `at` of `t`, between quotation marks or the ends of the text. */
  ghost predicate Window(t: string, s: string, at: nat) {
    && at + |s| <= |t| && t[at..at + |s|] == s
    && (at > 0 ==> t[at - 1] == '"') && (at + |s| < |t| ==> t[at + |s|] == '"')
  }

  lemma SameBoundary(t: string, s: string, at: nat, i: nat)
    requires Window(t, s, at) && i <= |s|
    ensures Boundary(t, at + i) <==> Boundary(s, i)
  {
    assert forall m | 0 <= m < |s| :: t[at + m] == s[m];
  }

  lemma SameRun(t: string, s: string, at: nat, i: nat, j: nat)
    requires Window(t, s, at) && i <= j <= |s|
    ensures t[at + i..at + j] == s[i..j]
    ensures TokenRun(t, at + i, at + j) <==> TokenRun(s, i, j)
  {
    assert forall m | 0 <= m < |s| :: t[at + m] == s[m];
    forall m | i <= m < j && j - i >= 8 && TokenRun(t, at + i, at + j) ensures TokenChar(s[m]) {
      assert TokenChar(t[at + m]);
    }
  }

  lemma SameApiKey(t: string, s: string, at: nat, i: nat, j: nat, k: nat)
    requires Window(t, s, at) && i <= j <= k <= |s|
    ensures ApiKeyAt(t, at + i, at + j, at + k) <==> ApiKeyAt(s, i, j, k)
    ensures GitHubTokenAt(t, at + i, at + j, at + k) <==> GitHubTokenAt(s, i, j, k)
  {
    hide Window, TokenRun, Boundary;
    SameRun(t, s, at, i, j);
    SameRun(t, s, at, j, k);
    SameBoundary(t, s, at, i);
    SameBoundary(t, s, at, k);
  }

  lemma SameBearer(t: string, s: string, at: nat, i: nat, j: nat, k: nat)
    requires Window(t, s, at) && i <= j <= k <= |s|
    ensures BearerAt(t, at + i, at + j, at + k) <==> BearerAt(s, i, j, k)
  {
    SameBoundary(t, s, at, i);
    SameBoundary(t, s, at, k);
    if j - i >= 7 {
      SameRun(t, s, at, i, i + 6);
    }
    assert forall m | 0 <= m < |s| :: t[at + m] == s[m];
    hide Window, Boundary, IsBearer, IsSpace, BearerChar;
    assert forall m | at <= m < at + |s| :: t[m] == s[m - at];
  }

  lemma SameWebToken(t: string, s: string, at: nat, i: nat, j: nat, k: nat, l: nat)
    requires Window(t, s, at) && i <= j <= k <= l <= |s|
    ensures WebTokenAt(t, at + i, at + j, at + k, at + l) <==> WebTokenAt(s, i, j, k, l)
  {
    SameBoundary(t, s, at, i);
    SameBoundary(t, s, at, l);
    if j - i >= 3 && j < k && k < l {
      SameRun(t, s, at, i, i + 3);
      SameRun(t, s, at, i + 3, j);
      SameRun(t, s, at, j + 1, k);
      SameRun(t, s, at, k + 1, l);
      assert t[at + j] == s[j] && t[at + k] == s[k];
    }
    hide Window, Boundary, TokenRun;
  }

  /** What matches in a window matches in the text. */
  lemma WindowMatches(t: string, s: string, at: nat)
    requires Window(t, s, at) && Matches(s)
    ensures Matches(t)
  {
    hide Window, ApiKeyAt, GitHubTokenAt, BearerAt, WebTokenAt;
    if i: nat, j: nat, k: nat :| i <= j <= k <= |s| && (ApiKeyAt(s, i, j, k) || GitHubTokenAt(s, i, j, k)) {
      WindowBounds(t, s, at);
      SameApiKey(t, s, at, i, j, k);
    } else if i: nat, j: nat, k: nat :| i <= j <= k <= |s| && BearerAt(s, i, j, k) {
      WindowBounds(t, s, at);
      SameBearer(t, s, at, i, j, k);
    } else {
      var i: nat, j: nat, k: nat, l: nat :| i <= j <= k <= l <= |s| && WebTokenAt(s, i, j, k, l);
      WindowBounds(t, s, at);
      SameWebToken(t, s, at, i, j, k, l);
    }
  }

  lemma WindowBounds(t: string, s: string, at: nat)
    requires Window(t, s, at)
    ensures at + |s| <= |t|
  {
  }

  /** No match contains a quotation mark. */
  lemma NoQuoteInside(t: string, i: nat, j: nat, k: nat, l: nat, q: nat)
    requires i <= j <= k <= l <= |t| && q < |t| && t[q] == '"'
    ensures ApiKeyAt(t, i, j, k) || GitHubTokenAt(t, i, j, k) || BearerAt(t, i, j, k) ==> q < i || k <= q
    ensures WebTokenAt(t, i, j, k, l) ==> q < i || l <= q
  {
    hide Boundary;
    if i <= q < j {
      assert t[i..j][q - i] == '"';
      if j - i >= 7 && q < i + 6 {
        assert t[i..i + 6][q - i] == '"';
      }
      if j - i >= 3 && q < i + 3 {
        assert t[i..i + 3][q - i] == '"';
      }
    }
  }

  /** A quotation mark cuts the search in two: what matches in the whole matches on one of its sides. Serialized
      strings stand between quotation marks, so searching the text is searching its strings. */
  lemma QuoteSeparates(a: string, b: string)
    ensures Matches(a + ['"'] + b) <==> Matches(a) || Matches(b)
  {
    var t := a + ['"'] + b;
    TwoWindows(a, b);
    hide *;
    if Matches(a) {
      WindowMatches(t, a, 0);
    }
    if Matches(b) {
      WindowMatches(t, b, |a| + 1);
    }
    if Matches(t) {
      MatchOnOneSide(t, a, b);
    }
  }

  lemma TwoWindows(a: string, b: string)
    ensures var t := a + ['"'] + b;
            && |t| == |a| + 1 + |b| && t[|a|] == '"' && Window(t, a, 0) && Window(t, b, |a| + 1)
  {
    var t := a + ['"'] + b;
    assert t[0..|a|] == a && t[|a| + 1..|a| + 1 + |b|] == b;
  }

  lemma MatchOnOneSide(t: string, a: string, b: string)
    requires Window(t, a, 0) && Window(t, b, |a| + 1) && |t| == |a| + 1 + |b| && t[|a|] == '"'
    requires Matches(t)
    ensures Matches(a) || Matches(b)
  {
    hide Window, ApiKeyAt, GitHubTokenAt, BearerAt, WebTokenAt;
    if i: nat, j: nat, k: nat :| i <= j <= k <= |t| && (ApiKeyAt(t, i, j, k) || GitHubTokenAt(t, i, j, k) || BearerAt(t, i, j, k)) {
      NoQuoteInside(t, i, j, k, k, |a|);
      ThreeOnOneSide(t, a, b, i, j, k);
    } else {
      var i: nat, j: nat, k: nat, l: nat :| i <= j <= k <= l <= |t| && WebTokenAt(t, i, j, k, l);
      NoQuoteInside(t, i, j, k, l, |a|);
      if l <= |a| {
        SameWebToken(t, a, 0, i, j, k, l);
      } else {
        SameWebToken(t, b, |a| + 1, i - |a| - 1, j - |a| - 1, k - |a| - 1, l - |a| - 1);
      }
    }
  }

  lemma ThreeOnOneSide(t: string, a: string, b: string, i: nat, j: nat, k: nat)
    requires Window(t, a, 0) && Window(t, b, |a| + 1) && |t| == |a| + 1 + |b|
    requires i <= j <= k <= |t| && (k <= |a| || |a| < i)
    requires ApiKeyAt(t, i, j, k) || GitHubTokenAt(t, i, j, k) || BearerAt(t, i, j, k)
    ensures Matches(a) || Matches(b)
  {
    hide Window, ApiKeyAt, GitHubTokenAt, BearerAt, WebTokenAt;
    if k <= |a| {
      SameApiKey(t, a, 0, i, j, k);
      SameBearer(t, a, 0, i, j, k);
    } else {
      var at := |a| + 1;
      SameApiKey(t, b, at, i - at, j - at, k - at);
      SameBearer(t, b, at, i - at, j - at, k - at);
    }
  }

  // ----- What matches -----

  /** How long a match of each pattern is at least, and that it starts a word. */
  lemma MatchesAreLong(s: string, i: nat, j: nat, k: nat, l: nat)
    requires i <= j <= k <= l <= |s|
    ensures ApiKeyAt(s, i, j, k) ==> k - i >= 11 && (i == 0 || !WordChar(s[i - 1]))
    ensures GitHubTokenAt(s, i, j, k) ==> k - i >= 12 && (i == 0 || !WordChar(s[i - 1]))
    ensures BearerAt(s, i, j, k) ==> k - i >= 15 && (i == 0 || !WordChar(s[i - 1]))
    ensures WebTokenAt(s, i, j, k, l) ==> l - i >= 29 && (i == 0 || !WordChar(s[i - 1]))
  {
    assert j > i ==> s[i] == s[i..j][0];
    assert j - i >= 7 ==> s[i] == s[i..i + 6][0];
    assert j - i >= 3 ==> s[i] == s[i..i + 3][0];
  }

  /** So no text of fewer than eleven characters is a credential. */
  lemma ShortTextMatchesNothing(s: string)
    requires |s| < 11
    ensures !Matches(s)
  {
    forall i, j, k, l | 0 <= i <= j <= k <= l <= |s|
      ensures !ApiKeyAt(s, i, j, k) && !GitHubTokenAt(s, i, j, k) && !BearerAt(s, i, j, k) && !WebTokenAt(s, i, j, k, l)
    {
      MatchesAreLong(s, i, j, k, l);
    }
    hide ApiKeyAt, GitHubTokenAt, BearerAt, WebTokenAt;
    forall i, j, k | 0 <= i <= j <= k <= |s|
      ensures !ApiKeyAt(s, i, j, k) && !GitHubTokenAt(s, i, j, k) && !BearerAt(s, i, j, k)
    {
      assert !WebTokenAt(s, i, j, k, |s|);
    }
  }

  /** At least eight token characters, the last of them a letter, a digit or an underscore. */
  ghost predicate Token(s: string) {
    |s| >= 8 && (forall m | 0 <= m < |s| :: TokenChar(s[m])) && WordChar(s[|s| - 1])
  }

  /** Every kind of API key and access token matches, whatever its token. */
  lemma KeysMatch(prefix: string, token: string)
    requires prefix in {"sk-", "sk-ant-", "sk-proj-", "sk-svcacct-", "ghp_", "gho_", "ghu_", "ghs_", "ghr_"} && Token(token)
    ensures Matches(prefix + token)
  {
    var s, j := prefix + token, |prefix|;
    assert s[0..j] == prefix;
    assert forall m | j <= m < |s| :: s[m] == token[m - j];
    assert TokenRun(s, j, |s|);
    assert WordChar(prefix[0]) && s[0] == prefix[0];
    assert Boundary(s, 0) && Boundary(s, |s|);
    assert ApiKeyAt(s, 0, j, |s|) || GitHubTokenAt(s, 0, j, |s|);
  }

  lemma WebTokensMatch(a: string, b: string, c: string)
    requires |a| >= 8 && (forall m | 0 <= m < |a| :: TokenChar(a[m]))
    requires |b| >= 8 && (forall m | 0 <= m < |b| :: TokenChar(b[m])) && Token(c)
    ensures Matches("eyJ" + a + "." + b + "." + c)
  {
    var head := "eyJ" + a;
    var front := head + "." + b;
    var s := front + "." + c;
    assert s[..|front|] == front && s[|front|] == '.' && s[|front| + 1..] == c;
    assert front[..|head|] == head && front[|head|] == '.' && front[|head| + 1..] == b;
    assert forall m | 0 <= m < |front| :: s[m] == front[m];
    assert forall m | 0 <= m < |head| :: front[m] == head[m];
    forall m | 3 <= m < |head| ensures TokenChar(s[m]) {
      assert head[m] == a[m - 3];
    }
    forall m | |head| + 1 <= m < |front| ensures TokenChar(s[m]) {
      assert front[m] == b[m - |head| - 1];
    }
    forall m | |front| + 1 <= m < |s| ensures TokenChar(s[m]) {
      assert s[m] == c[m - |front| - 1];
    }
    WebTokenFound(s, |head|, |front|);
  }

  lemma WebTokenFound(s: string, j: nat, k: nat)
    requires 3 < j < k < |s| && s[0] == 'e' && s[1] == 'y' && s[2] == 'J' && s[j] == '.' && s[k] == '.'
    requires TokenRun(s, 3, j) && TokenRun(s, j + 1, k) && TokenRun(s, k + 1, |s|) && WordChar(s[|s| - 1])
    ensures Matches(s)
  {
    assert s[0..3] == "eyJ";
    assert Boundary(s, 0) && Boundary(s, |s|);
    assert WebTokenAt(s, 0, j, k, |s|);
  }

  lemma BearersMatch(word: string, gap: string, token: string)
    requires IsBearer(word) && gap != "" && (forall m | 0 <= m < |gap| :: IsSpace(gap[m]))
    requires |token| >= 8 && (forall m | 0 <= m < |token| :: BearerChar(token[m])) && WordChar(token[|token| - 1])
    ensures Matches(word + gap + token)
  {
    var s, j := word + gap + token, 6 + |gap|;
    assert s[0..6] == word && s[0] == word[0];
    assert WordChar(word[0]) by {
      assert Lower(word[0]) == 'b';
    }
    assert forall m | 6 <= m < j :: s[m] == gap[m - 6];
    assert forall m | j <= m < |s| :: s[m] == token[m - j];
    assert Boundary(s, 0) && Boundary(s, |s|);
    hide IsSpace, BearerChar, IsBearer;
    assert BearerAt(s, 0, j, |s|);
  }

  // ----- Reading serialized strings back -----

  function HexValue(c: char): int {
    if '0' <= c <= '9' then c as int - '0' as int else c as int - 'a' as int + 10
  }

  /** The character a backslash and what follows it stand for, and how many characters that takes. */
  function Unescaped(t: string): (char, nat)
    requires |t| >= 6 || (|t| >= 2 && t[1] != 'u')
  {
    var c := t[1];
    if c == 'n' then ('\n', 2)
    else if c == 'r' then ('\r', 2)
    else if c == 't' then ('\t', 2)
    else if c == 'b' then (8 as char, 2)
    else if c == 'f' then (12 as char, 2)
    else if c == 'u' then (((HexValue(t[4]) * 16 + HexValue(t[5])) % 256) as char, 6)
    else (c, 2)
  }

  /** The string that a serialized one stands for, as a JSON reader decodes it. */
  function Decoded(t: string): string {
    if t == "" then ""
    else if t[0] != '\\' then [t[0]] + Decoded(t[1..])
    else if |t| >= 6 || (|t| >= 2 && t[1] != 'u') then [Unescaped(t).0] + Decoded(t[Unescaped(t).1..])
    else t
  }

  /** Serializing loses nothing: reading the text back gives the string. */
  lemma {:induction false} DecodedEscaped(s: string)
    ensures Decoded(Escaped(s)) == s
  {
    if s != "" {
      DecodedEscaped(s[1..]);
      hide Escaped;
      DecodeOne(s[0], Escaped(s[1..]));
      assert Escaped(s) == EscapedChar(s[0]) + Escaped(s[1..]) by { EscapedCons(s); }
    }
  }

  lemma EscapedCons(s: string)
    requires s != ""
    ensures Escaped(s) == EscapedChar(s[0]) + Escaped(s[1..])
  {
  }

  lemma DecodeOne(c: char, rest: string)
    ensures Decoded(EscapedChar(c) + rest) == [c] + Decoded(rest)
  {
    var t, front := EscapedChar(c) + rest, EscapedChar(c);
    assert t[|front|..] == rest && forall m | 0 <= m < |front| :: t[m] == front[m];
    if front[0] != '\\' {
      assert front == [c];
    } else {
      DecodeEscape(c, t);
    }
  }

  lemma DecodeEscape(c: char, t: string)
    requires EscapedChar(c)[0] == '\\' && EscapedChar(c) <= t
    ensures |t| >= 6 || (|t| >= 2 && t[1] != 'u')
    ensures Unescaped(t) == (c, |EscapedChar(c)|)
  {
    var front := EscapedChar(c);
    assert forall m | 0 <= m < |front| :: t[m] == front[m];
    var n := c as int;
    if |front| == 6 {
      assert front[1] == 'u' && front[4] == HexDigit(n / 16) && front[5] == HexDigit(n % 16);
      HexRoundTrip(n / 16);
      HexRoundTrip(n % 16);
    }
  }

  lemma HexRoundTrip(d: nat)
    requires d < 16
    ensures HexValue(HexDigit(d)) == d
  {
  }

  // ----- The injected value -----

  const INJECTED_SECRET := "Bearer TESTTOKEN1234567890"

  lemma {:induction false} PlainTextEscapes(s: string)
    requires forall m | 0 <= m < |s| :: s[m] == ' ' || Alnum(s[m])
    ensures Escaped(s) == s
  {
    if s != "" {
      assert EscapedChar(s[0]) == [s[0]];
      PlainTextEscapes(s[1..]);
    }
  }

  lemma InjectedSecretMatches()
    ensures Secret(INJECTED_SECRET)
  {
    hide Matches, BearerAt, JsonSecret, Escaped;
    var s := INJECTED_SECRET;
    assert IsBearer(s[0..6]);
    assert IsSpace(s[6]);
    assert forall m | 7 <= m < 26 :: Alnum(s[m]) by {
      assert forall m | 7 <= m < 16 :: 'A' <= s[m] <= 'Z';
      assert forall m | 16 <= m < 26 :: '0' <= s[m] <= '9';
    }
    BearerFound(s);
    PlainTextEscapes(s);
  }

  lemma BearerFound(s: string)
    requires |s| >= 15 && IsBearer(s[0..6]) && s[6] == ' ' && forall m | 7 <= m < |s| :: Alnum(s[m])
    ensures Matches(s)
  {
    assert WordChar(s[|s| - 1]);
    assert s[0..6][0] == s[0] && WordChar(s[0]);
    assert IsSpace(s[6]);
    assert BearerAt(s, 0, 7, |s|);
  }
}
