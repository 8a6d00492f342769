/**
 * The regular expression that scrapes the API key out of dnsdist's configuration:
 *
 *     setWebserverConfig\(.*\{.*\bapiKey\s*=\s*"(.+?)"
 *
 * It is written here as a hand-made matcher for this one pattern, following RE2's
 * leftmost-first semantics: the match that starts leftmost wins; from that start the
 * greedy `.*` before the brace takes the LAST `{` on the line that still lets the rest
 * match, the greedy `.*` after it the LAST `apiKey` that does, `\s*` is maximal and the
 * lazy capture `(.+?)` is the shortest one. `.` matches anything but a newline; `\s` is
 * RE2's Perl class (tab, newline, form feed, carriage return, space).
 *
 * The matcher is checked against MatchShape, a declarative description of every way the
 * pattern can match, and the Preferred order that picks among them.
 */
module ApiKeyPattern {
  import opened Wrappers

  /** The literal text `setWebserverConfig\(` the pattern begins with. */
  const Keyword: string := "setWebserverConfig("

  /** The field name matched by `\bapiKey`. */
  const Field: string := "apiKey"

  /** One way the pattern matches: the brace at a, the field at b, `=` at e, the opening
      quote at d and the closing quote at r; the capture is text[d + 1..r]. */
  datatype Match = Match(a: nat, b: nat, e: nat, d: nat, r: nat)

  predicate HasAt(s: string, i: int, w: string) {
    0 <= i && i + |w| <= |s| && s[i..i + |w|] == w
  }

  /** RE2's `\s`. */
  predicate IsSpace(c: char) {
    c == '\t' || c == '\n' || c == '\U{C}' || c == '\r' || c == ' '
  }

  /** RE2's ASCII word characters, used by `\b`. */
  predicate IsWordChar(c: char) {
    'a' <= c <= 'z' || 'A' <= c <= 'Z' || '0' <= c <= '9' || c == '_'
  }

  /** `\b` between s[p - 1] and s[p]. */
  predicate WordBoundary(s: string, p: int)
    requires 0 <= p <= |s|
  {
    (p > 0 && IsWordChar(s[p - 1])) != (p < |s| && IsWordChar(s[p]))
  }

  /** s[lo..hi] could be consumed by `.*`. */
  ghost predicate NoNewline(s: string, lo: int, hi: int) {
    forall k :: lo <= k < hi ==> 0 <= k < |s| && s[k] != '\n'
  }

  /** s[lo..hi] could be consumed by `\s*`. */
  ghost predicate AllSpace(s: string, lo: int, hi: int) {
    forall k :: lo <= k < hi ==> 0 <= k < |s| && IsSpace(s[k])
  }

  /** `.*\{` starting at lo, with the brace at a. */
  ghost predicate BraceShape(s: string, lo: int, a: int) {
    0 <= lo <= a < |s| && NoNewline(s, lo, a) && s[a] == '{'
  }

  /** `.*\bapiKey` after the brace at a, with the field at b. */
  ghost predicate KeyShape(s: string, a: int, b: int) {
    a < b && HasAt(s, b, Field) && NoNewline(s, a + 1, b) && WordBoundary(s, b)
  }

  /** `\s*=\s*"(.+?)"` after the field at b. */
  ghost predicate TailShape(s: string, b: int, e: int, d: int, r: int) {
    0 <= b && b + |Field| <= e < d && d + 1 < r < |s|
    && AllSpace(s, b + |Field|, e) && s[e] == '='
    && AllSpace(s, e + 1, d) && s[d] == '"'
    && NoNewline(s, d + 1, r) && s[r] == '"'
  }

  /** Everything after `setWebserverConfig\(`, which ends at lo. */
  ghost predicate BodyShape(s: string, lo: int, m: Match) {
    BraceShape(s, lo, m.a) && KeyShape(s, m.a, m.b) && TailShape(s, m.b, m.e, m.d, m.r)
  }

  /** The whole pattern matches s[i..m.r + 1] in the way m describes. */
  ghost predicate MatchShape(s: string, i: int, m: Match) {
    HasAt(s, i, Keyword) && BodyShape(s, i + |Keyword|, m)
  }

  /** RE2's choice among matches with the same start: the greedy `.*`s prefer the later
      brace and the later field, the lazy capture the earlier closing quote. */
  ghost predicate Preferred(m: Match, m': Match) {
    m'.a <= m.a && m'.b <= m.b && (m'.b == m.b ==> m.r <= m'.r)
  }

  /** m is the match RE2 reports first when it searches from pos: the leftmost start at or
      after pos, then the preferred match from that start. */
  ghost predicate IsFirstMatchFrom(s: string, pos: int, i: int, m: Match) {
    pos <= i && MatchShape(s, i, m)
    && (forall i', m' :: pos <= i' < i ==> !MatchShape(s, i', m'))
    && (forall m' :: MatchShape(s, i, m') ==> Preferred(m, m'))
  }

  ghost predicate HasMatch(s: string) {
    exists i, m :: MatchShape(s, i, m)
  }

  /** The text captured by `(.+?)` in the match m. */
  function Capture(s: string, m: Match): string
    requires m.d + 1 <= m.r <= |s|
  {
    s[m.d + 1..m.r]
  }

  /** Where a `.*` starting at p must stop: the first newline at or after p, or the end. */
  function LineEnd(s: string, p: nat): (r: nat)
    requires p <= |s|
    ensures p <= r <= |s| && NoNewline(s, p, r) && (r == |s| || s[r] == '\n')
    decreases |s| - p
  {
    if p == |s| || s[p] == '\n' then p else LineEnd(s, p + 1)
  }

  /** The greedy `\s*` starting at p. */
  function SkipSpace(s: string, p: nat): (r: nat)
    requires p <= |s|
    ensures p <= r <= |s|
    decreases |s| - p
  {
    if p == |s| || !IsSpace(s[p]) then p else SkipSpace(s, p + 1)
  }

  /** SkipSpace stops at the first character that is not white space. */
  lemma {:induction false} SkipSpaceStops(s: string, p: nat)
    requires p <= |s|
    ensures var r := SkipSpace(s, p); AllSpace(s, p, r) && (r == |s| || !IsSpace(s[r]))
    decreases |s| - p
  {
    if p < |s| && IsSpace(s[p]) {
      SkipSpaceStops(s, p + 1);
    }
  }

  /** The lazy `(.+?)"` with the capture starting at q: k is the next position at which a
      closing quote is tried before the capture is extended by one more character. */
  function CloseQuote(s: string, q: nat, k: nat): (r: Option<nat>)
    requires q < k <= |s|
    requires NoNewline(s, q, k)
    ensures r.Some? ==> k <= r.value < |s| && s[r.value] == '"' && NoNewline(s, q, r.value)
    decreases |s| - k
  {
    if k == |s| || s[k] == '\n' then None
    else if s[k] == '"' then Some(k)
    else CloseQuote(s, q, k + 1)
  }

  /** The lazy capture stops at the first closing quote: any quote on the line from k on is
      one CloseQuote reaches, at or after the one it returns. */
  lemma {:induction false} CloseQuoteComplete(s: string, q: nat, k: nat, j: nat)
    requires q < k <= j < |s| && NoNewline(s, q, j) && s[j] == '"'
    ensures var r := CloseQuote(s, q, k); r.Some? && r.value <= j
    decreases |s| - k
  {
    if s[k] != '"' {
      assert s[k] != '\n';
      CloseQuoteComplete(s, q, k + 1, j);
    }
  }

  /** `\s*=\s*"(.+?)"` after the field at b: the positions of `=`, of the opening quote and
      of the closing quote. */
  function TailAt(s: string, b: nat): (t: Option<(nat, nat, nat)>)
    requires b <= |s|
  {
    if b + |Field| > |s| then None
    else
      var e := SkipSpace(s, b + |Field|);
      if e == |s| || s[e] != '=' then None
      else
        var d := SkipSpace(s, e + 1);
        if d + 1 >= |s| || s[d] != '"' || s[d + 1] == '\n' then None
        else
          match CloseQuote(s, d + 1, d + 2)
          case Some(r) => Some((e, d, r))
          case None => None
  }

  /** What TailAt finds is a tail of the pattern. */
  lemma TailAtSound(s: string, b: nat)
    requires b <= |s|
    ensures var t := TailAt(s, b); t.Some? ==> TailShape(s, b, t.value.0, t.value.1, t.value.2)
  {
    if b + |Field| <= |s| {
      var e := SkipSpace(s, b + |Field|);
      SkipSpaceStops(s, b + |Field|);
      if e < |s| {
        SkipSpaceStops(s, e + 1);
      }
    }
  }

  /** The greedy `.*\bapiKey` after the brace at a: the field is tried at x, x - 1, ..., a + 1. */
  function FindKey(s: string, a: nat, x: int): (m: Option<Match>)
    requires x <= |s|
    ensures m.Some? ==> m.value.a == a < m.value.b <= x
    decreases x - a
  {
    if x <= a then None
    else if HasAt(s, x, Field) && WordBoundary(s, x) && TailAt(s, x).Some? then
      var t := TailAt(s, x).value;
      Some(Match(a, x, t.0, t.1, t.2))
    else FindKey(s, a, x - 1)
  }

  /** What FindKey finds is a field after the brace at a, followed by a matching tail. */
  lemma {:induction false} FindKeySound(s: string, a: nat, x: int)
    requires x <= |s| && NoNewline(s, a + 1, x)
    ensures var m := FindKey(s, a, x);
      m.Some? ==> KeyShape(s, a, m.value.b) && TailShape(s, m.value.b, m.value.e, m.value.d, m.value.r)
    decreases x - a
  {
    if x > a {
      TailAtSound(s, x);
      if !(HasAt(s, x, Field) && WordBoundary(s, x) && TailAt(s, x).Some?) {
        assert NoNewline(s, a + 1, x - 1);
        FindKeySound(s, a, x - 1);
      }
    }
  }

  /** The greedy `.*\{` starting at lo: the brace is tried at x, x - 1, ..., lo, and the
      first brace after which the rest matches is taken. */
  function FindBrace(s: string, lo: nat, x: int): (m: Option<Match>)
    requires x <= |s|
    ensures m.Some? ==> lo <= m.value.a <= x
    decreases x - lo + 1
  {
    if x < lo then None
    else if x < |s| && s[x] == '{' && FindKey(s, x, LineEnd(s, x + 1)).Some? then
      FindKey(s, x, LineEnd(s, x + 1))
    else FindBrace(s, lo, x - 1)
  }

  /** What FindBrace finds is a brace on the line after lo, followed by a field and a tail. */
  lemma {:induction false} FindBraceSound(s: string, lo: nat, x: int)
    requires x <= |s| && NoNewline(s, lo, x)
    ensures var m := FindBrace(s, lo, x); m.Some? ==> BodyShape(s, lo, m.value)
    decreases x - lo + 1
  {
    if x >= lo {
      if x < |s| && s[x] == '{' && FindKey(s, x, LineEnd(s, x + 1)).Some? {
        FindKeySound(s, x, LineEnd(s, x + 1));
      } else {
        assert NoNewline(s, lo, x - 1);
        FindBraceSound(s, lo, x - 1);
      }
    }
  }

  /** The match that starts at i, if the pattern matches there. */
  function MatchAt(s: string, i: nat): (m: Option<Match>)
    requires i <= |s|
    ensures m.Some? ==> MatchShape(s, i, m.value)
  {
    if HasAt(s, i, Keyword) then
      var lo := i + |Keyword|;
      FindBraceSound(s, lo, LineEnd(s, lo));
      FindBrace(s, lo, LineEnd(s, lo))
    else None
  }

  /** The captures of the successive non-overlapping matches at or after pos, in order:
      what `FindAllSubmatch(buf, -1)` yields for group 1. */
  function CapturesFrom(s: string, pos: nat): (cs: seq<string>)
    requires pos <= |s|
    ensures forall k :: 0 <= k < |cs| ==> |cs[k]| > 0 && forall j :: 0 <= j < |cs[k]| ==> cs[k][j] != '\n'
    decreases |s| - pos
  {
    if pos == |s| then []
    else
      match MatchAt(s, pos)
      case Some(m) => [Capture(s, m)] + CapturesFrom(s, m.r + 1)
      case None => CapturesFrom(s, pos + 1)
  }

  /** All captures of the pattern in the text. */
  function Captures(s: string): seq<string> {
    CapturesFrom(s, 0)
  }

  /** `\s*=\s*"(.+?)"` has only one way to reach `=` and the opening quote after the field,
      and the matcher finds them and the earliest closing quote. */
  lemma TailAtComplete(s: string, b: nat, e: int, d: int, r: int)
    requires b <= |s| && TailShape(s, b, e, d, r)
    ensures TailAt(s, b).Some?
    ensures TailAt(s, b).value.0 == e && TailAt(s, b).value.1 == d && TailAt(s, b).value.2 <= r
  {
    SkipSpaceStops(s, b + |Field|);
    assert SkipSpace(s, b + |Field|) == e;
    SkipSpaceStops(s, e + 1);
    assert SkipSpace(s, e + 1) == d;
    assert s[d + 1] != '\n';
    assert r >= d + 2 && s[r] == '"' && NoNewline(s, d + 1, r);
    CloseQuoteComplete(s, d + 1, d + 2, r);
  }

  /** A position that does not start a matching field passes the search on to x - 1. */
  lemma FindKeySkip(s: string, a: nat, x: int)
    requires a < x <= |s|
    requires !(HasAt(s, x, Field) && WordBoundary(s, x) && TailAt(s, x).Some?)
    ensures FindKey(s, a, x) == FindKey(s, a, x - 1)
  {
  }

  /** A field at x that starts a matching tail is the one FindKey takes. */
  lemma FindKeyHere(s: string, a: nat, x: int)
    requires a < x <= |s|
    requires HasAt(s, x, Field) && WordBoundary(s, x) && TailAt(s, x).Some?
    ensures var t := TailAt(s, x).value; FindKey(s, a, x) == Some(Match(a, x, t.0, t.1, t.2))
  {
  }

  /** If the field at y, no later than x, starts a tail whose closing quote is at r or
      earlier, FindKey finds a field no earlier than y (and, at y itself, that quote). */
  lemma {:induction false} FindKeyReaches(s: string, a: nat, x: int, y: nat, r: nat)
    requires x <= |s| && a < y <= x
    requires HasAt(s, y, Field) && WordBoundary(s, y)
    requires TailAt(s, y).Some? && TailAt(s, y).value.2 <= r
    ensures var k := FindKey(s, a, x); k.Some? && y <= k.value.b && (y == k.value.b ==> k.value.r <= r)
    decreases x - a
  {
    if y == x {
      FindKeyHere(s, a, x);
    } else if HasAt(s, x, Field) && WordBoundary(s, x) && TailAt(s, x).Some? {
      FindKeyHere(s, a, x);
    } else {
      FindKeySkip(s, a, x);
      FindKeyReaches(s, a, x - 1, y, r);
    }
  }

  /** Whenever a field after the brace at a, no later than x, starts a tail that matches,
      FindKey succeeds with a field at least that late (and, at the same field, a closing
      quote no later). */
  lemma FindKeyComplete(s: string, a: nat, x: int, m': Match)
    requires x <= |s| && NoNewline(s, a + 1, x)
    requires m'.b <= x && KeyShape(s, a, m'.b) && TailShape(s, m'.b, m'.e, m'.d, m'.r)
    ensures var k := FindKey(s, a, x); k.Some? && m'.b <= k.value.b && (m'.b == k.value.b ==> k.value.r <= m'.r)
  {
    TailAtComplete(s, m'.b, m'.e, m'.d, m'.r);
    FindKeyReaches(s, a, x, m'.b, m'.r);
  }

  /** A field later than a brace at x, on the same line, is one FindKey can reach from x. */
  lemma KeyAfterBrace(s: string, x: nat, m': Match)
    requires x < |s| && m'.a <= x < m'.b
    requires KeyShape(s, m'.a, m'.b) && TailShape(s, m'.b, m'.e, m'.d, m'.r)
    ensures var k := FindKey(s, x, LineEnd(s, x + 1)); k.Some? && m'.b <= k.value.b && (m'.b == k.value.b ==> k.value.r <= m'.r)
  {
    var le := LineEnd(s, x + 1);
    assert NoNewline(s, x + 1, m'.b);
    assert m'.b <= le;
    FindKeyComplete(s, x, le, m');
  }

  /** A brace at x that a matching field follows on its line is the one FindBrace takes. */
  lemma FindBraceHere(s: string, lo: nat, x: nat)
    requires lo <= x < |s| && s[x] == '{' && FindKey(s, x, LineEnd(s, x + 1)).Some?
    ensures FindBrace(s, lo, x) == FindKey(s, x, LineEnd(s, x + 1))
  {
  }

  /** Any other position passes the search on to x - 1. */
  lemma FindBraceSkip(s: string, lo: nat, x: int)
    requires lo <= x <= |s|
    requires !(x < |s| && s[x] == '{' && FindKey(s, x, LineEnd(s, x + 1)).Some?)
    ensures FindBrace(s, lo, x) == FindBrace(s, lo, x - 1)
  {
  }

  /** When the brace at x is followed by a field that matches, FindBrace takes it, and that
      is a match RE2 prefers to any whose brace is no later than x. */
  lemma BraceTaken(s: string, lo: nat, x: nat, m': Match)
    requires lo <= x < |s| && s[x] == '{'
    requires FindKey(s, x, LineEnd(s, x + 1)).Some?
    requires BodyShape(s, lo, m') && m'.a <= x
    ensures var k := FindBrace(s, lo, x); k.Some? && Preferred(k.value, m')
  {
    FindBraceHere(s, lo, x);
    if m'.b > x {
      KeyAfterBrace(s, x, m');
    }
  }

  /** Whenever the body of the pattern matches after lo with its brace no later than x,
      FindBrace succeeds, with a match RE2 prefers to that one. */
  lemma {:induction false} FindBraceComplete(s: string, lo: nat, x: int, m': Match)
    requires x <= |s|
    requires BodyShape(s, lo, m') && m'.a <= x
    ensures var k := FindBrace(s, lo, x); k.Some? && Preferred(k.value, m')
    decreases x - lo + 1
  {
    if m'.a == x {
      KeyAfterBrace(s, x, m');
      BraceTaken(s, lo, x, m');
    } else if x < |s| && s[x] == '{' && FindKey(s, x, LineEnd(s, x + 1)).Some? {
      BraceTaken(s, lo, x, m');
    } else {
      FindBraceSkip(s, lo, x);
      FindBraceComplete(s, lo, x - 1, m');
    }
  }

  /** MatchAt finds the match RE2 prefers among all matches that start at i. */
  lemma MatchAtComplete(s: string, i: nat, m': Match)
    requires i <= |s| && MatchShape(s, i, m')
    ensures var k := MatchAt(s, i); k.Some? && Preferred(k.value, m')
  {
    var lo := i + |Keyword|;
    var x := LineEnd(s, lo);
    assert m'.a <= x;
    FindBraceComplete(s, lo, x, m');
  }

  /** A match found at pos is the one RE2 reports first when searching from pos. */
  lemma MatchAtFirst(s: string, pos: nat, m: Match)
    requires pos <= |s| && MatchAt(s, pos) == Some(m)
    ensures IsFirstMatchFrom(s, pos, pos, m)
  {
    forall m' | MatchShape(s, pos, m') ensures Preferred(m, m') {
      MatchAtComplete(s, pos, m');
    }
  }

  /** When MatchAt fails at pos, the pattern has no match starting there. */
  lemma MatchAtNone(s: string, pos: nat)
    requires pos <= |s| && MatchAt(s, pos).None?
    ensures forall m' :: !MatchShape(s, pos, m')
  {
    forall m' ensures !MatchShape(s, pos, m') {
      if MatchShape(s, pos, m') { MatchAtComplete(s, pos, m'); }
    }
  }

  /** The captures found from pos are empty exactly when the pattern matches nowhere at or
      after pos; otherwise the first one is the capture of the match RE2 reports first. */
  ghost predicate FirstCaptureFrom(s: string, pos: nat, cs: seq<string>) {
    (cs == [] <==> forall i, m :: pos <= i ==> !MatchShape(s, i, m))
    && (cs != [] ==> exists i, m :: IsFirstMatchFrom(s, pos, i, m) && cs[0] == Capture(s, m))
  }

  lemma CapturesFromHit(s: string, pos: nat)
    requires pos < |s| && MatchAt(s, pos).Some?
    ensures FirstCaptureFrom(s, pos, CapturesFrom(s, pos))
  {
    var m := MatchAt(s, pos).value;
    MatchAtFirst(s, pos, m);
    assert CapturesFrom(s, pos)[0] == Capture(s, m);
  }

  lemma CapturesFromMiss(s: string, pos: nat)
    requires pos < |s| && MatchAt(s, pos).None?
    requires FirstCaptureFrom(s, pos + 1, CapturesFrom(s, pos + 1))
    ensures FirstCaptureFrom(s, pos, CapturesFrom(s, pos))
  {
    MatchAtNone(s, pos);
    var cs := CapturesFrom(s, pos + 1);
    assert CapturesFrom(s, pos) == cs;
    if cs != [] {
      var i, m :| IsFirstMatchFrom(s, pos + 1, i, m) && cs[0] == Capture(s, m);
      FirstMatchFromEarlier(s, pos, i, m);
    }
  }

  /** Searching from one position earlier finds the same first match when nothing matches
      at that position. */
  lemma FirstMatchFromEarlier(s: string, pos: nat, i: int, m: Match)
    requires forall m' :: !MatchShape(s, pos, m')
    requires IsFirstMatchFrom(s, pos + 1, i, m)
    ensures IsFirstMatchFrom(s, pos, i, m)
  {
  }

  lemma {:induction false} CapturesFromFirst(s: string, pos: nat)
    requires pos <= |s|
    ensures FirstCaptureFrom(s, pos, CapturesFrom(s, pos))
    decreases |s| - pos
  {
    if pos == |s| {
      forall i, m | pos <= i ensures !MatchShape(s, i, m) {
        assert !HasAt(s, i, Keyword);
      }
    } else if MatchAt(s, pos).Some? {
      CapturesFromHit(s, pos);
    } else {
      CapturesFromFirst(s, pos + 1);
      CapturesFromMiss(s, pos);
    }
  }

  /** A configuration line `setWebserverConfig({<other> apiKey = "<key>"<rest>`, where
      other is what the line sets before the key. */
  function ConfigLine(other: string, key: string, rest: string): string {
    Keyword + "{" + other + " " + Field + " = \"" + key + "\"" + rest
  }

  /** Where the pieces of a configuration line sit, the field starting at b. */
  lemma ConfigLineLayout(other: string, key: string, rest: string, b: nat)
    requires b == |Keyword| + 2 + |other|
    ensures var s := ConfigLine(other, key, rest);
      && s[..|Keyword|] == Keyword && s[|Keyword|] == '{'
      && s[|Keyword| + 1..b] == other + " "
      && s[b..] == Field + " = \"" + key + "\"" + rest
  {
    var s := ConfigLine(other, key, rest);
    assert s == (Keyword + "{" + other + " ") + (Field + " = \"" + key + "\"" + rest);
  }

  /** The characters of the tail `apiKey = "<key>"<rest>`, the quotes at 9 and 10 + |key|. */
  lemma TailLayout(t: string, key: string, rest: string)
    requires t == Field + " = \"" + key + "\"" + rest
    ensures t[..6] == Field && t[6] == ' ' && t[7] == '=' && t[8] == ' ' && t[9] == '"'
    ensures t[10..10 + |key|] == key && t[10 + |key|] == '"'
    ensures 'a' !in key && 'a' !in rest ==> 'a' !in t[1..]
  {
    assert t == (Field + " = \"") + key + ("\"" + rest);
    assert t[1..] == Field[1..] + " = \"" + key + "\"" + rest;
  }

  /** A character missing from s[lo..hi] is missing at every position in that range. */
  lemma NotInRange(s: string, lo: nat, hi: nat, c: char)
    requires lo <= hi <= |s| && c !in s[lo..hi]
    ensures forall j :: lo <= j < hi ==> s[j] != c
  {
    forall j | lo <= j < hi ensures s[j] != c {
      assert s[j] == s[lo..hi][j - lo];
    }
  }

  /** The match the example line is built around. */
  function ConfigLineMatchOf(other: string, key: string): Match {
    var b := |Keyword| + 2 + |other|;
    Match(|Keyword|, b, b + 7, b + 9, b + 10 + |key|)
  }

  /** The pattern's shape, from the characters a configuration line puts in place. */
  lemma ShapeFromLayout(s: string, b: nat, r: nat)
    requires |Keyword| + 2 <= b && b + 10 < r < |s|
    requires HasAt(s, 0, Keyword) && s[|Keyword|] == '{' && NoNewline(s, |Keyword| + 1, b)
    requires s[b - 1] == ' ' && HasAt(s, b, Field)
    requires s[b + 6] == ' ' && s[b + 7] == '=' && s[b + 8] == ' ' && s[b + 9] == '"'
    requires NoNewline(s, b + 10, r) && s[r] == '"'
    ensures MatchShape(s, 0, Match(|Keyword|, b, b + 7, b + 9, r))
  {
    assert KeyShape(s, |Keyword|, b) by { assert s[b] == Field[0]; }
    assert TailShape(s, b, b + 7, b + 9, r);
  }

  lemma ConfigLineShape(other: string, key: string, rest: string)
    requires '\n' !in other && key != [] && '\n' !in key && '"' !in key
    ensures MatchShape(ConfigLine(other, key, rest), 0, ConfigLineMatchOf(other, key))
  {
    var s := ConfigLine(other, key, rest);
    var b := |Keyword| + 2 + |other|;
    ConfigLineLayout(other, key, rest, b);
    var t := s[b..];
    TailLayout(t, key, rest);
    var r := b + 10 + |key|;
    assert s[b..b + 6] == Field && s[b + 10..r] == key && s[r] == t[10 + |key|];
    assert s[b + 6] == t[6] && s[b + 7] == t[7] && s[b + 8] == t[8] && s[b + 9] == t[9];
    assert s[b - 1] == ' ';
    NotInRange(s, |Keyword| + 1, b, '\n');
    NotInRange(s, b + 10, r, '\n');
    ShapeFromLayout(s, b, r);
  }

  /** Any match from the start of the line that is preferred to the one it is built around
      has the same field and quotes, so it captures the key. */
  lemma ConfigLinePin(s: string, b: nat, key: string, rest: string, k: Match)
    requires b > 0 && b <= |s| && s[b..] == Field + " = \"" + key + "\"" + rest
    requires key != [] && '"' !in key && 'a' !in key && 'a' !in rest
    requires MatchShape(s, 0, k) && Preferred(k, Match(|Keyword|, b, b + 7, b + 9, b + 10 + |key|))
    ensures Capture(s, k) == key
  {
    var t := s[b..];
    TailLayout(t, key, rest);
    var r := b + 10 + |key|;
    assert s[b + 1..] == t[1..];
    NotInRange(s, b + 1, |s|, 'a');
    assert s[k.b] == Field[0];
    assert s[b + 6] == ' ' && s[b + 7] == '=' && s[b + 8] == ' ' && s[b + 9] == '"';
    assert k.e == b + 7 && k.d == b + 9;
    assert s[b + 10..r] == key && s[b + 11..r] == key[1..];
    NotInRange(s, b + 11, r, '"');
  }

  /** On such a line the pattern matches at the start and captures exactly the key, when
      the key is a non-empty single-line string without a quote and no `a` follows the
      field (so no later `apiKey` can be preferred). */
  lemma ConfigLineMatch(other: string, key: string, rest: string)
    requires '\n' !in other && key != [] && '\n' !in key && '"' !in key
    requires 'a' !in key && 'a' !in rest
    ensures var s := ConfigLine(other, key, rest);
      MatchAt(s, 0).Some? && Capture(s, MatchAt(s, 0).value) == key
  {
    var s := ConfigLine(other, key, rest);
    var b := |Keyword| + 2 + |other|;
    ConfigLineLayout(other, key, rest, b);
    ConfigLineShape(other, key, rest);
    MatchAtComplete(s, 0, ConfigLineMatchOf(other, key));
    ConfigLinePin(s, b, key, rest, MatchAt(s, 0).value);
  }
}
