/** Path globs compiled to regular expressions: the text that is built, its grammar, and the language. */
module Glob {
  import opened Wrappers

  // ----- translating -----

  /** `**` + `/`, `**`, `*`, `?`, or a character that stands for itself. */
  datatype Token = AnyDirs | AnyText | AnyRun | AnyOne | Exact(c: char)

  const ESCAPED := ".+^${}()|[]\\"

  function CharText(c: char): string {
    if c in ESCAPED then ['\\', c] else [c]
  }

  function TokenText(t: Token): string {
    match t
    case AnyDirs => "(?:[^/]+/)*"
    case AnyText => ".*"
    case AnyRun => "[^/]*"
    case AnyOne => "[^/]"
    case Exact(c) => CharText(c)
  }

  /** The first token of a glob and how many characters it takes. */
  function FirstToken(glob: string): (r: (Token, nat))
    requires glob != ""
    ensures 1 <= r.1 <= |glob|
    ensures r.0.Exact? ==> r.0.c != '*' && r.0.c != '?'
  {
    if glob[0] == '*' then
      if |glob| > 1 && glob[1] == '*' then
        if |glob| > 2 && glob[2] == '/' then (AnyDirs, 3) else (AnyText, 2)
      else (AnyRun, 1)
    else if glob[0] == '?' then (AnyOne, 1)
    else (Exact(glob[0]), 1)
  }

  function RegexText(glob: string): string {
    if glob == "" then ""
    else
      var t := FirstToken(glob);
      TokenText(t.0) + RegexText(glob[t.1..])
  }

  method GlobToRegExp(glob: string) returns (source: string)
    ensures source == "^" + RegexText(glob) + "$"
  {
    var out := "";
    var i := 0;
    assert glob[0..] == glob;
    while i < |glob|
      invariant 0 <= i <= |glob|
      invariant out + RegexText(glob[i..]) == RegexText(glob)
    {
      ghost var start, before := i, out;
      var c := glob[i];
      if c == '*' {
        if i + 1 < |glob| && glob[i + 1] == '*' {
          if i + 2 < |glob| && glob[i + 2] == '/' {
            out := out + "(?:[^/]+/)*";
            i := i + 2;
          } else {
            out := out + ".*";
            i := i + 1;
          }
        } else {
          out := out + "[^/]*";
        }
      } else if c == '?' {
        out := out + "[^/]";
      } else {
        out := out + CharText(c);
      }
      i := i + 1;
      OneToken(glob, start, i, before, out);
    }
    assert out + "" == out;
    source := "^" + out + "$";
  }

  lemma OneToken(glob: string, i: nat, next: nat, before: string, after: string)
    requires i < next <= |glob|
    requires FirstToken(glob[i..]).1 == next - i && after == before + TokenText(FirstToken(glob[i..]).0)
    ensures after + RegexText(glob[next..]) == before + RegexText(glob[i..])
  {
    hide FirstToken, TokenText;
    assert glob[i..][next - i..] == glob[next..];
  }

  // ----- the regular expressions that come out -----

  datatype Regex =
    | Lit(c: char)
    | Dot                      // any character but a line terminator
    | NotSlash                 // [^/]
    | Star(r: Regex)
    | Plus(r: Regex)
    | Group(items: seq<Regex>)

  predicate LineTerminator(c: char) {
    c == '\n' || c == '\r' || c == '\U{2028}' || c == '\U{2029}'
  }

  predicate Matches(re: Regex, s: string)
    decreases re, |s|, 0
  {
    match re
    case Lit(c) => s == [c]
    case Dot => |s| == 1 && !LineTerminator(s[0])
    case NotSlash => |s| == 1 && s[0] != '/'
    case Star(r) => Repeats(r, s)
    case Plus(r) => exists k | 0 <= k <= |s| :: Matches(r, s[..k]) && Repeats(r, s[k..])
    case Group(items) => MatchesAll(items, s)
  }

  /** Zero or more times. */
  predicate Repeats(r: Regex, s: string)
    decreases r, |s|, 1
  {
    s == "" || exists k | 0 < k <= |s| :: Matches(r, s[..k]) && Repeats(r, s[k..])
  }

  /** One after the other. */
  predicate MatchesAll(items: seq<Regex>, s: string)
    decreases items, |s|, 0
  {
    if items == [] then s == ""
    else exists k | 0 <= k <= |s| :: Matches(items[0], s[..k]) && MatchesAll(items[1..], s[k..])
  }

  // ----- reading regular-expression text -----

  datatype Parsed<+T> = Parsed(item: T, rest: string)

  const SYNTAX := "*+?{}()|[]\\^$."

  /** One atom: an escape, the dot, `[^/]`, a non-capturing group or an ordinary character. */
  function ReadAtom(t: string): (r: Option<Parsed<Regex>>)
    requires t != ""
    ensures r.Some? ==> |r.value.rest| < |t|
    decreases |t|, 0
  {
    if t[0] == '\\' then
      if |t| > 1 && t[1] in SYNTAX then Some(Parsed(Lit(t[1]), t[2..])) else None
    else if t[0] == '.' then Some(Parsed(Dot, t[1..]))
    else if "[^/]" <= t then Some(Parsed(NotSlash, t[4..]))
    else if "(?:" <= t then
      var inner := ReadItems(t[3..]);
      if inner.None? || inner.value.rest == "" then None
      else Some(Parsed(Group(inner.value.item), inner.value.rest[1..]))
    else if t[0] in SYNTAX then None
    else Some(Parsed(Lit(t[0]), t[1..]))
  }

  /** Atoms with their quantifiers, up to the end or a closing parenthesis. */
  function ReadItems(t: string): (r: Option<Parsed<seq<Regex>>>)
    ensures r.Some? ==> |r.value.rest| <= |t| && (r.value.rest == "" || r.value.rest[0] == ')')
    decreases |t|, 1
  {
    if t == "" || t[0] == ')' then Some(Parsed([], t))
    else
      var atom := ReadAtom(t);
      if atom.None? then None else Prepend(Quantified(atom.value), t)
  }

  /** The atom with a following star or plus taken in. */
  function Quantified(atom: Parsed<Regex>): (r: Parsed<Regex>)
    ensures |r.rest| <= |atom.rest|
  {
    if atom.rest == "" then atom
    else if atom.rest[0] == '*' then Parsed(Star(atom.item), atom.rest[1..])
    else if atom.rest[0] == '+' then Parsed(Plus(atom.item), atom.rest[1..])
    else atom
  }

  function Prepend(first: Parsed<Regex>, t: string): (r: Option<Parsed<seq<Regex>>>)
    requires |first.rest| < |t|
    ensures r.Some? ==> |r.value.rest| <= |t| && (r.value.rest == "" || r.value.rest[0] == ')')
    decreases |t|, 0
  {
    var more := ReadItems(first.rest);
    if more.None? then None else Some(Parsed([first.item] + more.value.item, more.value.rest))
  }

  /** A whole pattern anchored at both ends; anything else is a syntax error here. */
  function Compile(source: string): Option<Regex> {
    if |source| < 2 || source[0] != '^' || source[|source| - 1] != '$' then None
    else
      var items := ReadItems(source[1..|source| - 1]);
      if items.None? || items.value.rest != "" then None else Some(Group(items.value.item))
  }

  // ----- the direct matcher -----

  function SlashAt(p: string): (k: int)
    ensures -1 <= k < |p|
  {
    if p == "" then -1
    else if p[0] == '/' then 0
    else
      var k := SlashAt(p[1..]);
      if k < 0 then -1 else k + 1
  }

  lemma {:induction false} SlashIsFirst(p: string)
    requires SlashAt(p) >= 0
    ensures p[SlashAt(p)] == '/' && '/' !in p[..SlashAt(p)]
  {
    if p[0] != '/' {
      SlashIsFirst(p[1..]);
      var k := SlashAt(p[1..]);
      assert p[..k + 1] == [p[0]] + p[1..][..k];
    }
  }

  lemma {:induction false} FirstSlashIs(p: string, k: nat)
    requires k < |p| && p[k] == '/' && '/' !in p[..k]
    ensures SlashAt(p) == k
  {
    if k > 0 {
      assert p[..k][0] == p[0] && p[1..][..k - 1] == p[..k][1..];
      FirstSlashIs(p[1..], k - 1);
    }
  }

  /** What a glob means for a path, read off the glob's own syntax. */
  predicate GlobMatch(glob: string, p: string)
    decreases |glob|, |p|
  {
    if glob == "" then p == ""
    else
      var t := FirstToken(glob);
      var rest := glob[t.1..];
      match t.0
      case AnyDirs =>
        var k := SlashAt(p);
        GlobMatch(rest, p) || (k > 0 && GlobMatch(glob, p[k + 1..]))
      case AnyText => GlobMatch(rest, p) || (p != "" && !LineTerminator(p[0]) && GlobMatch(glob, p[1..]))
      case AnyRun => GlobMatch(rest, p) || (p != "" && p[0] != '/' && GlobMatch(glob, p[1..]))
      case AnyOne => p != "" && p[0] != '/' && GlobMatch(rest, p[1..])
      case Exact(c) => p != "" && p[0] == c && GlobMatch(rest, p[1..])
  }

  // ----- the text parses to the intended expression -----

  const SEGMENT := Group([Plus(NotSlash), Lit('/')])

  function TokenRegex(t: Token): Regex {
    match t
    case AnyDirs => Star(SEGMENT)
    case AnyText => Star(Dot)
    case AnyRun => Star(NotSlash)
    case AnyOne => NotSlash
    case Exact(c) => Lit(c)
  }

  function Items(glob: string): seq<Regex> {
    if glob == "" then []
    else
      var t := FirstToken(glob);
      [TokenRegex(t.0)] + Items(glob[t.1..])
  }

  /** Text that cannot be taken for a quantifier or a closing parenthesis. */
  predicate Fresh(t: string) {
    t == "" || (t[0] != '*' && t[0] != '+' && t[0] != ')')
  }

  lemma RegexTextFresh(glob: string)
    ensures Fresh(RegexText(glob))
  {
    if glob != "" {
      var t := FirstToken(glob);
      assert RegexText(glob)[0] == TokenText(t.0)[0];
    }
  }

  /** One atom read off the front, with its quantifier, then the rest. */
  lemma ReadsOne(t: string, first: Parsed<Regex>, rest: string, items: seq<Regex>, end: string)
    requires t != "" && t[0] != ')' && ReadAtom(t).Some? && Quantified(ReadAtom(t).value) == first
    requires first.rest == rest && ReadItems(rest) == Some(Parsed(items, end))
    ensures ReadItems(t) == Some(Parsed([first.item] + items, end))
  {
    hide ReadAtom;
  }

  lemma ReadsExact(c: char, rest: string)
    requires c != '*' && c != '?'
    ensures ReadAtom(CharText(c) + rest) == Some(Parsed(Lit(c), rest))
    ensures (CharText(c) + rest)[0] != ')'
  {
    var t := CharText(c) + rest;
    if c in ESCAPED {
      assert t[0] == '\\' && t[1] == c && t[2..] == rest;
      assert c in SYNTAX;
    } else {
      assert t[0] == c && t[1..] == rest;
      assert c !in SYNTAX;
    }
  }

  lemma ReadsNotSlash(rest: string)
    ensures ReadAtom("[^/]" + rest) == Some(Parsed(NotSlash, rest))
  {
    var t := "[^/]" + rest;
    assert t[..4] == "[^/]" && t[4..] == rest;
  }

  lemma SegmentText(slash: string, rest: string)
    requires slash == "/" + (")" + rest)
    ensures var t := "(?:[^/]+/)" + rest; "(?:" <= t && t[3..] == "[^/]" + ("+" + slash)
    ensures (")" + rest)[1..] == rest && ("+" + slash)[1..] == slash
  {
    var t := "(?:[^/]+/)" + rest;
    assert t == "(?:" + ("[^/]" + ("+" + slash));
  }

  /** The slash that closes a group's items. */
  lemma ReadsLastSlash(close: string)
    requires close != "" && close[0] == ')'
    ensures ReadItems("/" + close) == Some(Parsed([Lit('/')], close))
  {
    assert ReadItems(close) == Some(Parsed([], close));
    ReadsExact('/', close);
    assert CharText('/') + close == "/" + close;
    hide ReadAtom, ReadItems, CharText;
    ReadsOne("/" + close, Parsed(Lit('/'), close), close, [], close);
    assert [Lit('/')] + [] == [Lit('/')];
  }

  /** One or more other characters in front of it. */
  lemma ReadsOthers(slash: string, close: string)
    requires ReadItems(slash) == Some(Parsed([Lit('/')], close)) && ("+" + slash)[1..] == slash
    ensures ReadItems("[^/]" + ("+" + slash)) == Some(Parsed([Plus(NotSlash), Lit('/')], close))
  {
    ReadsNotSlash("+" + slash);
    hide ReadAtom, ReadItems;
    ReadsOne("[^/]" + ("+" + slash), Parsed(Plus(NotSlash), slash), slash, [Lit('/')], close);
    assert [Plus(NotSlash)] + [Lit('/')] == [Plus(NotSlash), Lit('/')];
  }

  lemma ReadsSegment(rest: string)
    ensures ReadAtom("(?:[^/]+/)" + rest) == Some(Parsed(SEGMENT, rest))
  {
    hide ReadAtom, ReadItems;
    var close := ")" + rest;
    var slash := "/" + close;
    SegmentText(slash, rest);
    ReadsLastSlash(close);
    ReadsOthers(slash, close);
    ReadsGroup("(?:[^/]+/)" + rest, "[^/]" + ("+" + slash), [Plus(NotSlash), Lit('/')], close);
  }

  lemma ReadsGroup(t: string, inner: string, items: seq<Regex>, close: string)
    requires "(?:" <= t && t[3..] == inner && ReadItems(inner) == Some(Parsed(items, close)) && close != ""
    ensures ReadAtom(t) == Some(Parsed(Group(items), close[1..]))
  {
    hide ReadItems;
    assert t[0] == "(?:"[0];
  }

  /** A starred atom read off the front. */
  lemma StarReads(atom: string, r: Regex, rest: string, items: seq<Regex>)
    requires atom != "" && atom[0] != ')' && ReadAtom(atom + ("*" + rest)) == Some(Parsed(r, "*" + rest))
    requires ReadItems(rest) == Some(Parsed(items, ""))
    ensures ReadItems(atom + "*" + rest) == Some(Parsed([Star(r)] + items, ""))
  {
    hide ReadItems, ReadAtom;
    var t := atom + ("*" + rest);
    assert t == atom + "*" + rest && t[0] == atom[0] && ("*" + rest)[1..] == rest;
    ReadsOne(t, Parsed(Star(r), rest), rest, items, "");
  }

  lemma OneReads(t: Token, rest: string, items: seq<Regex>)
    requires t.AnyOne? || (t.Exact? && t.c != '*' && t.c != '?')
    requires Fresh(rest) && ReadItems(rest) == Some(Parsed(items, ""))
    ensures ReadItems(TokenText(t) + rest) == Some(Parsed([TokenRegex(t)] + items, ""))
  {
    hide ReadItems, ReadAtom, CharText;
    if t.AnyOne? {
      ReadsNotSlash(rest);
    } else {
      ReadsExact(t.c, rest);
    }
    ReadsOne(TokenText(t) + rest, Parsed(TokenRegex(t), rest), rest, items, "");
  }

  lemma TokenReads(t: Token, rest: string, items: seq<Regex>)
    requires t.Exact? ==> t.c != '*' && t.c != '?'
    requires Fresh(rest) && ReadItems(rest) == Some(Parsed(items, ""))
    ensures ReadItems(TokenText(t) + rest) == Some(Parsed([TokenRegex(t)] + items, ""))
  {
    hide ReadItems, ReadAtom, Fresh, CharText;
    match t
    case AnyDirs =>
      ReadsSegment("*" + rest);
      StarReads("(?:[^/]+/)", SEGMENT, rest, items);
      assert "(?:[^/]+/)" + "*" == TokenText(t);
    case AnyText =>
      ReadsDot("*" + rest);
      StarReads(".", Dot, rest, items);
      assert "." + "*" == TokenText(t);
    case AnyRun =>
      ReadsNotSlash("*" + rest);
      StarReads("[^/]", NotSlash, rest, items);
      assert "[^/]" + "*" == TokenText(t);
    case _ =>
      OneReads(t, rest, items);
  }

  lemma ReadsDot(rest: string)
    ensures ReadAtom("." + rest) == Some(Parsed(Dot, rest))
  {
    assert ("." + rest)[1..] == rest;
  }

  lemma {:induction false} TextParses(glob: string)
    ensures ReadItems(RegexText(glob)) == Some(Parsed(Items(glob), ""))
  {
    if glob != "" {
      var t := FirstToken(glob);
      var rest := glob[t.1..];
      TextParses(rest);
      RegexTextFresh(rest);
      TokenReads(t.0, RegexText(rest), Items(rest));
    }
  }

  // ----- the expression matches what the glob means -----

  lemma EmptyPrefix(items: seq<Regex>, p: string)
    requires items != [] && Matches(items[0], "") && MatchesAll(items[1..], p)
    ensures MatchesAll(items, p)
  {
    assert p[..0] == "" && p[0..] == p;
  }

  /** A starred item first: either it is done, or it takes a nonempty piece and stays. */
  lemma StarUnrolls(r: Regex, rest: seq<Regex>, p: string)
    ensures MatchesAll([Star(r)] + rest, p) <==>
            MatchesAll(rest, p) || exists k | 0 < k <= |p| :: Matches(r, p[..k]) && MatchesAll([Star(r)] + rest, p[k..])
  {
    var items := [Star(r)] + rest;
    assert items[0] == Star(r) && items[1..] == rest;
    if MatchesAll(items, p) {
      StarOpens(r, rest, p);
    }
    if MatchesAll(rest, p) {
      EmptyPrefix(items, p);
    }
    hide Matches, MatchesAll;
    if exists k | 0 < k <= |p| :: Matches(r, p[..k]) && MatchesAll(items, p[k..]) {
      var k :| 0 < k <= |p| && Matches(r, p[..k]) && MatchesAll(items, p[k..]);
      StarTakes(r, rest, p, k);
    }
  }

  lemma StarOpens(r: Regex, rest: seq<Regex>, p: string)
    requires MatchesAll([Star(r)] + rest, p)
    ensures MatchesAll(rest, p) || exists k | 0 < k <= |p| :: Matches(r, p[..k]) && MatchesAll([Star(r)] + rest, p[k..])
  {
    hide Matches, Repeats, MatchesAll;
    var j := StarFirst(r, rest, p);
    if j == 0 {
      assert p[0..] == p;
    } else {
      var k := RepeatsOnce(r, p[..j]);
      Recut(p, j, k);
      StarThen(r, rest, p[k..], j - k);
    }
  }

  lemma StarFirst(r: Regex, rest: seq<Regex>, p: string) returns (j: nat)
    requires MatchesAll([Star(r)] + rest, p)
    ensures j <= |p| && Repeats(r, p[..j]) && MatchesAll(rest, p[j..])
  {
    var items := [Star(r)] + rest;
    assert items[0] == Star(r) && items[1..] == rest;
    j :| 0 <= j <= |p| && Matches(Star(r), p[..j]) && MatchesAll(rest, p[j..]);
  }

  lemma RepeatsOnce(r: Regex, s: string) returns (k: nat)
    requires s != "" && Repeats(r, s)
    ensures 0 < k <= |s| && Matches(r, s[..k]) && Repeats(r, s[k..])
  {
    k :| 0 < k <= |s| && Matches(r, s[..k]) && Repeats(r, s[k..]);
  }

  lemma Recut(p: string, j: nat, k: nat)
    requires k <= j <= |p|
    ensures p[..j][..k] == p[..k] && p[..j][k..] == p[k..][..j - k] && p[k..][j - k..] == p[j..]
  {
  }

  lemma StarThen(r: Regex, rest: seq<Regex>, p: string, j: nat)
    requires j <= |p| && Repeats(r, p[..j]) && MatchesAll(rest, p[j..])
    ensures MatchesAll([Star(r)] + rest, p)
  {
    var items := [Star(r)] + rest;
    assert items[0] == Star(r) && items[1..] == rest;
    assert Matches(Star(r), p[..j]);
    hide Matches, Repeats;
  }

  lemma StarTakes(r: Regex, rest: seq<Regex>, p: string, k: nat)
    requires 0 < k <= |p| && Matches(r, p[..k]) && MatchesAll([Star(r)] + rest, p[k..])
    ensures MatchesAll([Star(r)] + rest, p)
  {
    var q := p[k..];
    var j := StarFirst(r, rest, q);
    hide *;
    Recut(p, k + j, k);
    RepeatsMore(r, p[..k + j], k);
    StarThen(r, rest, p, k + j);
  }

  lemma RepeatsMore(r: Regex, s: string, k: nat)
    requires 0 < k <= |s| && Matches(r, s[..k]) && Repeats(r, s[k..])
    ensures Repeats(r, s)
  {
    hide Matches;
  }

  /** Expressions for exactly one character. */
  predicate Single(r: Regex) {
    r.Lit? || r.Dot? || r.NotSlash?
  }

  predicate Accepts(r: Regex, c: char)
    requires Single(r)
  {
    match r
    case Lit(d) => c == d
    case Dot => !LineTerminator(c)
    case NotSlash => c != '/'
  }

  lemma SingleMatches(r: Regex, s: string)
    requires Single(r)
    ensures Matches(r, s) <==> |s| == 1 && Accepts(r, s[0])
  {
  }

  lemma SingleFirst(r: Regex, rest: seq<Regex>, p: string)
    requires Single(r)
    ensures MatchesAll([r] + rest, p) <==> p != "" && Accepts(r, p[0]) && MatchesAll(rest, p[1..])
  {
    var items := [r] + rest;
    assert items[0] == r && items[1..] == rest;
    forall k | 0 <= k <= |p| ensures Matches(r, p[..k]) <==> k == 1 && Accepts(r, p[0]) {
      SingleMatches(r, p[..k]);
    }
    if p != "" && Accepts(r, p[0]) && MatchesAll(rest, p[1..]) {
      assert Matches(items[0], p[..1]) && MatchesAll(items[1..], p[1..]);
    }
  }

  lemma SingleStar(r: Regex, rest: seq<Regex>, p: string)
    requires Single(r)
    ensures MatchesAll([Star(r)] + rest, p) <==>
            MatchesAll(rest, p) || (p != "" && Accepts(r, p[0]) && MatchesAll([Star(r)] + rest, p[1..]))
  {
    StarUnrolls(r, rest, p);
    forall k | 0 < k <= |p| ensures Matches(r, p[..k]) <==> k == 1 && Accepts(r, p[0]) {
      SingleMatches(r, p[..k]);
    }
    if p != "" && Accepts(r, p[0]) && MatchesAll([Star(r)] + rest, p[1..]) {
      assert Matches(r, p[..1]);
    }
  }

  lemma {:induction false} RunOfNotSlash(s: string)
    ensures Repeats(NotSlash, s) <==> '/' !in s
  {
    if s != "" {
      RunOfNotSlash(s[1..]);
      assert s == [s[0]] + s[1..];
      if '/' !in s {
        assert Matches(NotSlash, s[..1]) && Repeats(NotSlash, s[1..]);
      }
      if Repeats(NotSlash, s) {
        var k :| 0 < k <= |s| && Matches(NotSlash, s[..k]) && Repeats(NotSlash, s[k..]);
        SingleMatches(NotSlash, s[..k]);
        assert s[..k][0] == s[0];
      }
    }
  }

  /** A directory step: a nonempty name without a slash, then a slash. */
  lemma SegmentMatches(s: string)
    ensures Matches(SEGMENT, s) <==> |s| > 1 && s[|s| - 1] == '/' && '/' !in s[..|s| - 1]
  {
    var items := [Plus(NotSlash), Lit('/')];
    assert items[1..] == [Lit('/')] && [Lit('/')] + [] == [Lit('/')];
    var n := |s| - 1;
    if Matches(SEGMENT, s) {
      assert MatchesAll(items, s);
      var k :| 0 <= k <= |s| && Matches(Plus(NotSlash), s[..k]) && MatchesAll([Lit('/')], s[k..]);
      SingleFirst(Lit('/'), [], s[k..]);
      assert k == n && s[k..][0] == s[n];
      PlusMatches(s[..k]);
    }
    if |s| > 1 && s[n] == '/' && '/' !in s[..n] {
      PlusMatches(s[..n]);
      SingleFirst(Lit('/'), [], s[n..]);
      assert s[n..][1..] == "";
      assert Matches(items[0], s[..n]) && MatchesAll(items[1..], s[n..]);
    }
  }

  lemma PlusMatches(s: string)
    ensures Matches(Plus(NotSlash), s) <==> s != "" && '/' !in s
  {
    if Matches(Plus(NotSlash), s) {
      var k :| 0 <= k <= |s| && Matches(NotSlash, s[..k]) && Repeats(NotSlash, s[k..]);
      RunOfNotSlash(s[k..]);
      assert k == 1 && s == s[..1] + s[1..];
    }
    if s != "" && '/' !in s {
      RunOfNotSlash(s[1..]);
      assert Matches(NotSlash, s[..1]) && Repeats(NotSlash, s[1..]);
    }
  }

  lemma DirsFirst(rest: seq<Regex>, p: string)
    ensures MatchesAll([Star(SEGMENT)] + rest, p) <==>
            MatchesAll(rest, p) || (SlashAt(p) > 0 && MatchesAll([Star(SEGMENT)] + rest, p[SlashAt(p) + 1..]))
  {
    var slash := SlashAt(p);
    StarUnrolls(SEGMENT, rest, p);
    forall k | 0 < k <= |p| ensures Matches(SEGMENT, p[..k]) <==> slash > 0 && k == slash + 1 {
      StepIsFirstSlash(p, k);
    }
    hide Matches, MatchesAll;
    if slash > 0 && MatchesAll([Star(SEGMENT)] + rest, p[slash + 1..]) {
      assert Matches(SEGMENT, p[..slash + 1]);
    }
  }

  lemma StepIsFirstSlash(p: string, k: nat)
    requires 0 < k <= |p|
    ensures Matches(SEGMENT, p[..k]) <==> SlashAt(p) > 0 && k == SlashAt(p) + 1
  {
    hide Matches;
    var slash, s := SlashAt(p), p[..k];
    SegmentMatches(s);
    assert s[..k - 1] == p[..k - 1];
    if slash > 0 {
      SlashIsFirst(p);
    }
    if k > 1 && p[k - 1] == '/' && '/' !in p[..k - 1] {
      FirstSlashIs(p, k - 1);
    }
  }

  /** The expression matches a path exactly when the glob does. */
  lemma {:induction false} ItemsMean(glob: string, p: string)
    ensures MatchesAll(Items(glob), p) <==> GlobMatch(glob, p)
    decreases |glob|, |p|
  {
    if glob != "" {
      var t := FirstToken(glob);
      var rest := glob[t.1..];
      hide MatchesAll, Matches;
      match t.0
      case AnyDirs =>
        DirsFirst(Items(rest), p);
        ItemsMean(rest, p);
        if SlashAt(p) > 0 {
          ItemsMean(glob, p[SlashAt(p) + 1..]);
        }
      case AnyText =>
        SingleStar(Dot, Items(rest), p);
        ItemsMean(rest, p);
        if p != "" {
          ItemsMean(glob, p[1..]);
        }
      case AnyRun =>
        SingleStar(NotSlash, Items(rest), p);
        ItemsMean(rest, p);
        if p != "" {
          ItemsMean(glob, p[1..]);
        }
      case AnyOne =>
        SingleFirst(NotSlash, Items(rest), p);
        if p != "" {
          ItemsMean(rest, p[1..]);
        }
      case Exact(c) =>
        SingleFirst(Lit(c), Items(rest), p);
        if p != "" {
          ItemsMean(rest, p[1..]);
        }
    }
  }

  /** The pattern text is well formed and matches exactly the paths the glob stands for. */
  lemma PatternMatchesGlob(glob: string, p: string)
    ensures var re := Compile("^" + RegexText(glob) + "$");
            re.Some? && (Matches(re.value, p) <==> GlobMatch(glob, p))
  {
    var text := RegexText(glob);
    var source := "^" + text + "$";
    assert source[1..|source| - 1] == text;
    hide RegexText, ReadItems, MatchesAll, GlobMatch;
    TextParses(glob);
    ItemsMean(glob, p);
  }

  /** One glob after another is compiled and tried, until one matches. */
  method MatchesAnyGlob(path: string, globs: seq<string>) returns (b: bool)
    ensures b <==> exists g :: g in globs && GlobMatch(g, path)
  {
    hide GlobMatch, Matches, Compile, RegexText;
    for i := 0 to |globs|
      invariant forall g :: g in globs[..i] ==> !GlobMatch(g, path)
    {
      var source := GlobToRegExp(globs[i]);
      PatternMatchesGlob(globs[i], path);
      if Matches(Compile(source).value, path) {
        return true;
      }
    }
    assert globs[..|globs|] == globs;
    b := false;
  }

  // ----- what the parts mean -----

  /** A glob without wildcards matches only itself. */
  lemma {:induction false} PlainGlobIsItself(glob: string, p: string)
    requires '*' !in glob && '?' !in glob
    ensures GlobMatch(glob, p) <==> p == glob
  {
    if glob != "" {
      assert glob[0] in glob && glob == [glob[0]] + glob[1..];
      if p != "" {
        PlainGlobIsItself(glob[1..], p[1..]);
        assert p == [p[0]] + p[1..];
      }
    }
  }

  /** Zero or more nonempty directory names, each followed by a slash. */
  predicate Dirs(d: string) {
    d == "" || (SlashAt(d) > 0 && Dirs(d[SlashAt(d) + 1..]))
  }

  /** Some directories, and then what `rest` takes. */
  ghost predicate SomeDirs(rest: string -> bool, p: string) {
    exists d: string, q: string :: Dirs(d) && rest(q) && p == d + q
  }

  lemma DirsDone(rest: string -> bool, p: string)
    requires rest(p)
    ensures SomeDirs(rest, p)
  {
    assert Dirs("") && p == "" + p;
  }

  lemma DirsMore(rest: string -> bool, p: string)
    requires SlashAt(p) > 0 && SomeDirs(rest, p[SlashAt(p) + 1..])
    ensures SomeDirs(rest, p)
  {
    hide Dirs, SlashAt;
    var name := p[..SlashAt(p)];
    var d, q :| Dirs(d) && rest(q) && p[SlashAt(p) + 1..] == d + q;
    SlashIsFirst(p);
    DirsCons(name, d);
    assert p == name + ("/" + (d + q)) == name + ("/" + d) + q;
  }

  lemma DirsSplit(rest: string -> bool, p: string)
    requires SomeDirs(rest, p)
    ensures rest(p) || (SlashAt(p) > 0 && SomeDirs(rest, p[SlashAt(p) + 1..]))
  {
    hide SlashAt;
    var d, q :| Dirs(d) && rest(q) && p == d + q;
    if d == "" {
      assert p == q;
    } else {
      var slash := SlashAt(d);
      SlashIsFirst(d);
      SlashAppend(d, q);
      hide Dirs;
      assert p[slash + 1..] == d[slash + 1..] + q;
    }
  }

  lemma {:induction false} SlashAppend(d: string, q: string)
    requires SlashAt(d) >= 0
    ensures SlashAt(d + q) == SlashAt(d)
  {
    assert (d + q)[0] == d[0] && (d + q)[1..] == d[1..] + q;
    if d[0] != '/' {
      SlashAppend(d[1..], q);
    }
  }

  /** A name and a slash in front of directories. */
  lemma DirsCons(name: string, d: string)
    requires name != "" && '/' !in name && Dirs(d)
    ensures Dirs(name + ("/" + d))
  {
    hide SlashAt;
    SlashAfter(name, d);
    assert (name + ("/" + d))[|name| + 1..] == d;
  }

  lemma {:induction false} SlashAfter(name: string, d: string)
    requires '/' !in name
    ensures SlashAt(name + ("/" + d)) == |name|
  {
    var s := name + ("/" + d);
    if name != "" {
      assert s[0] == name[0] && s[1..] == name[1..] + ("/" + d);
      SlashAfter(name[1..], d);
    }
  }

  /** `**` is documented as any suffix, but the dot it becomes stops at line terminators: it matches
      exactly the texts without one. */
  lemma {:induction false} AnyTextIsOneLine(p: string)
    ensures GlobMatch("**", p) <==> OneLine(p)
  {
    assert FirstToken("**") == (AnyText, 2) && "**"[2..] == "";
    if p != "" {
      AnyTextIsOneLine(p[1..]);
      assert p == [p[0]] + p[1..];
    }
  }

  // ----- against the documentation -----

  /** The documented meaning, where `**` is any text at all. */
  predicate DocMatch(glob: string, p: string)
    decreases |glob|, |p|
  {
    if glob == "" then p == ""
    else
      var t := FirstToken(glob);
      var rest := glob[t.1..];
      match t.0
      case AnyDirs =>
        var k := SlashAt(p);
        DocMatch(rest, p) || (k > 0 && DocMatch(glob, p[k + 1..]))
      case AnyText => DocMatch(rest, p) || (p != "" && DocMatch(glob, p[1..]))
      case AnyRun => DocMatch(rest, p) || (p != "" && p[0] != '/' && DocMatch(glob, p[1..]))
      case AnyOne => p != "" && p[0] != '/' && DocMatch(rest, p[1..])
      case Exact(c) => p != "" && p[0] == c && DocMatch(rest, p[1..])
  }

  predicate OneLine(p: string) {
    forall c :: c in p ==> !LineTerminator(c)
  }

  /** What the code accepts, the documentation accepts. */
  lemma {:induction false} MatchIsDocumented(glob: string, p: string)
    requires GlobMatch(glob, p)
    ensures DocMatch(glob, p)
    decreases |glob|, |p|
  {
    if glob != "" {
      var t := FirstToken(glob);
      var rest := glob[t.1..];
      hide FirstToken;
      if (t.0.AnyDirs? || t.0.AnyText? || t.0.AnyRun?) && GlobMatch(rest, p) {
        MatchIsDocumented(rest, p);
      } else if t.0.AnyDirs? {
        MatchIsDocumented(glob, p[SlashAt(p) + 1..]);
      } else if t.0.AnyText? || t.0.AnyRun? {
        MatchIsDocumented(glob, p[1..]);
      } else {
        MatchIsDocumented(rest, p[1..]);
      }
    }
  }

  /** On a path of one line the code accepts all that the documentation does. */
  lemma {:induction false} DocumentedMatches(glob: string, p: string)
    requires DocMatch(glob, p) && OneLine(p)
    ensures GlobMatch(glob, p)
    decreases |glob|, |p|
  {
    if glob != "" {
      var t := FirstToken(glob);
      var rest := glob[t.1..];
      hide FirstToken;
      if (t.0.AnyDirs? || t.0.AnyText? || t.0.AnyRun?) && DocMatch(rest, p) {
        DocumentedMatches(rest, p);
      } else if t.0.AnyDirs? {
        DocumentedMatches(glob, p[SlashAt(p) + 1..]);
      } else if t.0.AnyText? || t.0.AnyRun? {
        assert p[0] in p;
        DocumentedMatches(glob, p[1..]);
      } else {
        DocumentedMatches(rest, p[1..]);
      }
    }
  }

  lemma {:induction false} AnyTextDocumented(p: string)
    ensures DocMatch("**", p)
  {
    assert FirstToken("**") == (AnyText, 2) && "**"[2..] == "";
    if p != "" {
      AnyTextDocumented(p[1..]);
    }
  }

  /** A path is matched as documented, by every glob, exactly when it holds no line terminator. */
  lemma {:induction false} DocumentedIffOneLine(p: string)
    ensures (forall glob :: GlobMatch(glob, p) <==> DocMatch(glob, p)) <==> OneLine(p)
  {
    if OneLine(p) {
      forall glob ensures GlobMatch(glob, p) <==> DocMatch(glob, p) {
        if GlobMatch(glob, p) {
          MatchIsDocumented(glob, p);
        }
        if DocMatch(glob, p) {
          DocumentedMatches(glob, p);
        }
      }
    } else {
      AnyTextDocumented(p);
      AnyTextIsOneLine(p);
      assert !(GlobMatch("**", p) <==> DocMatch("**", p));
    }
  }

  // ----- the meaning of a glob, character by character -----

  /** A question mark takes one character but a slash; a character that is no wildcard takes itself. */
  lemma {:induction false} SingleMeans(c: char, g: string, p: string)
    requires c != '*'
    ensures GlobMatch([c] + g, p) <==> p != "" && (if c == '?' then p[0] != '/' else p[0] == c) && GlobMatch(g, p[1..])
    ensures DocMatch([c] + g, p) <==> p != "" && (if c == '?' then p[0] != '/' else p[0] == c) && DocMatch(g, p[1..])
    ensures (GlobMatch("", p) <==> p == "") && (DocMatch("", p) <==> p == "")
  {
    var glob := [c] + g;
    assert glob[0] == c && glob[1..] == g;
  }

  /** Some first characters that `take` accepts, and then what `rest` takes. */
  ghost predicate SomeRun(take: char -> bool, rest: string -> bool, p: string) {
    exists k :: 0 <= k <= |p| && (forall i :: 0 <= i < k ==> take(p[i])) && rest(p[k..])
  }

  /** A matcher that stops, or takes one character more, takes a run. */
  lemma {:induction false} RunTaken(all: string -> bool, take: char -> bool, rest: string -> bool, p: string)
    requires forall q: string :: all(q) <==> rest(q) || (q != "" && take(q[0]) && all(q[1..]))
    ensures all(p) <==> SomeRun(take, rest, p)
    decreases |p|
  {
    assert p[0..] == p;
    if p != "" {
      RunTaken(all, take, rest, p[1..]);
      if take(p[0]) && SomeRun(take, rest, p[1..]) {
        var k :| 0 <= k <= |p| - 1 && (forall i :: 0 <= i < k ==> take(p[1..][i])) && rest(p[1..][k..]);
        assert p[k + 1..] == p[1..][k..];
        assert forall i :: 0 < i < k + 1 ==> take(p[i]) by {
          forall i | 0 < i < k + 1 ensures take(p[i]) {
            assert p[1..][i - 1] == p[i];
          }
        }
      }
      if SomeRun(take, rest, p) {
        var k :| 0 <= k <= |p| && (forall i :: 0 <= i < k ==> take(p[i])) && rest(p[k..]);
        if k > 0 {
          assert p[1..][k - 1..] == p[k..];
          assert forall i :: 0 <= i < k - 1 ==> take(p[1..][i]);
        }
      }
    }
  }

  predicate NotASlash(c: char) {
    c != '/'
  }

  predicate NotALineEnd(c: char) {
    !LineTerminator(c)
  }

  /** A lone star takes any run of characters without a slash. */
  lemma {:induction false} StarMeans(g: string, p: string)
    requires g == "" || g[0] != '*'
    ensures GlobMatch("*" + g, p) <==> SomeRun(NotASlash, q => GlobMatch(g, q), p)
    ensures DocMatch("*" + g, p) <==> SomeRun(NotASlash, q => DocMatch(g, q), p)
  {
    var glob := "*" + g;
    assert glob[0] == '*' && glob[1..] == g && FirstToken(glob) == (AnyRun, 1);
    hide FirstToken, SomeRun;
    RunTaken(q => GlobMatch(glob, q), NotASlash, q => GlobMatch(g, q), p);
    RunTaken(q => DocMatch(glob, q), NotASlash, q => DocMatch(g, q), p);
  }

  /** Two stars that no slash follows take any run of characters of one line; as documented, any text. */
  lemma {:induction false} TwoStarsMean(g: string, p: string)
    requires g == "" || g[0] != '/'
    ensures GlobMatch("**" + g, p) <==> SomeRun(NotALineEnd, q => GlobMatch(g, q), p)
    ensures DocMatch("**" + g, p) <==> SomeRun(c => true, q => DocMatch(g, q), p)
  {
    var glob := "**" + g;
    assert glob[0] == '*' && glob[1] == '*' && glob[2..] == g;
    assert g != "" ==> glob[2] == g[0];
    assert FirstToken(glob) == (AnyText, 2);
    hide FirstToken, SomeRun;
    RunTaken(q => GlobMatch(glob, q), NotALineEnd, q => GlobMatch(g, q), p);
    RunTaken(q => DocMatch(glob, q), c => true, q => DocMatch(g, q), p);
  }

  /** Two stars and a slash stand for any number of directories. */
  lemma {:induction false} LeadingDirs(g: string, p: string)
    ensures GlobMatch("**/" + g, p) <==> SomeDirs(q => GlobMatch(g, q), p)
    ensures DocMatch("**/" + g, p) <==> SomeDirs(q => DocMatch(g, q), p)
  {
    var glob := "**/" + g;
    assert glob[0] == '*' && glob[1] == '*' && glob[2] == '/' && glob[3..] == g;
    assert FirstToken(glob) == (AnyDirs, 3);
    hide FirstToken, SomeDirs, SlashAt;
    DirsTaken(q => GlobMatch(glob, q), q => GlobMatch(g, q), p);
    DirsTaken(q => DocMatch(glob, q), q => DocMatch(g, q), p);
  }

  /** A matcher that stops, or takes one directory more, takes directories. */
  lemma {:induction false} DirsTaken(all: string -> bool, rest: string -> bool, p: string)
    requires forall q: string :: all(q) <==> rest(q) || (SlashAt(q) > 0 && all(q[SlashAt(q) + 1..]))
    ensures all(p) <==> SomeDirs(rest, p)
    decreases |p|
  {
    hide SomeDirs;
    if SlashAt(p) > 0 {
      DirsTaken(all, rest, p[SlashAt(p) + 1..]);
    }
    if rest(p) {
      DirsDone(rest, p);
    } else if all(p) {
      DirsMore(rest, p);
    }
    if SomeDirs(rest, p) {
      DirsSplit(rest, p);
    }
  }
}
