/** The message scanner of scripts/translations/translator.py and the validation built on it. The
    scanner is proved to be the inverse of rendering a message from its pieces. */
module MessageScanner {
  import opened Options
  import StringOrder

  /** The Unicode character classes the scanner consults: `str.isspace`, `\w` and `\d`. */
  datatype Classes = Classes(space: char -> bool, word: char -> bool, digit: char -> bool)

  predicate Letter(c: char) { 'A' <= c <= 'Z' || 'a' <= c <= 'z' || c == '_' || c == '$' }

  predicate IdentChar(c: char) { Letter(c) || '0' <= c <= '9' }

  /** What the scanner relies on about the classes. */
  ghost predicate Sane(cl: Classes) {
    && !cl.space('\'') && !cl.space('}') && !cl.digit('}') && !cl.digit('\'')
    && (forall c :: IdentChar(c) || cl.digit(c) ==> !cl.space(c))
  }

  predicate KeyChar(cl: Classes, c: char) { c == '.' || cl.word(c) }

  // ----- Messages as sequences of pieces -----

  /** A character of literal text, a printf token, a linked message, a quoted escape or a
      placeholder; the last two with the white space written around their body. */
  datatype Piece =
    | Plain(c: char)
    | Printf(c: char)
    | Link(modifier: string, key: string)
    | Escape(before: string, body: string, after: string)
    | Placeholder(before: string, body: string, after: string)

  function Modified(modifier: string, key: string): string {
    ['.'] + (modifier + ([':'] + key))
  }

  function LinkBody(modifier: string, key: string): string {
    if modifier == [] then [':'] + key else Modified(modifier, key)
  }

  function Quoted(body: string, rest: string): string {
    ['\''] + (body + (['\''] + rest))
  }

  function EscapeBody(before: string, body: string, after: string): string {
    before + Quoted(body, after + ['}'])
  }

  function PlaceholderBody(before: string, body: string, after: string): string {
    before + ((body + after) + ['}'])
  }

  /** The first character of a piece. */
  function Mark(p: Piece): char {
    match p
    case Plain(c) => c
    case Printf(_) => '%'
    case Link(_, _) => '@'
    case _ => '{'
  }

  /** The other characters of a piece. */
  function Body(p: Piece): string {
    match p
    case Plain(_) => []
    case Printf(c) => [c]
    case Link(modifier, key) => LinkBody(modifier, key)
    case Escape(before, body, after) => EscapeBody(before, body, after)
    case Placeholder(before, body, after) => PlaceholderBody(before, body, after)
  }

  function Text(p: Piece): string {
    [Mark(p)] + Body(p)
  }

  function Size(p: Piece): (n: nat)
    ensures n > 0
  {
    match p
    case Plain(_) => 1
    case Printf(_) => 2
    case Link(modifier, key) => if modifier == [] then 2 + |key| else 3 + |modifier| + |key|
    case Escape(before, body, after) => |before| + |body| + |after| + 4
    case Placeholder(before, body, after) => |before| + |body| + |after| + 2
  }

  lemma SizeIsLength(p: Piece)
    ensures |Text(p)| == Size(p)
  {
  }

  /** The token of a piece, without the incidental white space. */
  function TokenText(p: Piece): string {
    match p
    case Escape(_, body, _) => "{'" + body + "'}"
    case Placeholder(_, body, _) => "{" + body + "}"
    case _ => Text(p)
  }

  function Token(p: Piece): seq<string> {
    if p.Plain? then [] else [TokenText(p)]
  }

  function Render(ps: seq<Piece>): string {
    if ps == [] then [] else Text(ps[0]) + Render(ps[1..])
  }

  function Tokens(ps: seq<Piece>): seq<string> {
    if ps == [] then [] else Token(ps[0]) + Tokens(ps[1..])
  }

  predicate All(p: char -> bool, s: string) {
    forall i :: 0 <= i < |s| ==> p(s[i])
  }

  predicate Ident(s: string) { s != [] && Letter(s[0]) && All(IdentChar, s) }

  predicate Index(cl: Classes, s: string) { s != [] && All(cl.digit, s) }

  predicate PieceOk(cl: Classes, p: Piece) {
    match p
    case Plain(c) => c != '@' && c != '{' && c != '}'
    case Printf(c) => c == 's' || c == 'd'
    case Link(modifier, key) => (modifier == [] || Ident(modifier)) && key != [] && All(c => KeyChar(cl, c), key)
    case Escape(before, body, after) => All(cl.space, before) && '\'' !in body && All(cl.space, after)
    case Placeholder(before, body, after) =>
      All(cl.space, before) && (Ident(body) || Index(cl, body)) && All(cl.space, after)
  }

  /** Some pieces that are of the grammar, and some that are not. */
  lemma SamplePlaceholders(cl: Classes)
    requires cl.digit('1') && cl.digit('2') && !cl.digit('a')
    ensures PieceOk(cl, Placeholder("", "aZ$_09", "")) && PieceOk(cl, Placeholder("", "12", ""))
    ensures !PieceOk(cl, Placeholder("", "1a", "")) && !PieceOk(cl, Placeholder("", "a-b", ""))
    ensures !PieceOk(cl, Placeholder("", "", ""))
  {
    assert !Letter("1a"[0]) && !cl.digit("1a"[1]);
    assert !IdentChar("a-b"[1]) && !cl.digit("a-b"[0]);
  }

  lemma SampleLinks(cl: Classes)
    requires cl.word('a') && cl.word('b') && !cl.word('-')
    ensures PieceOk(cl, Link("up", "a.b")) && PieceOk(cl, Link("", "a")) && !PieceOk(cl, Link("", ""))
    ensures !PieceOk(cl, Link("1", "a")) && !PieceOk(cl, Link("", "a-b"))
  {
    assert !Letter("1"[0]) && !KeyChar(cl, "a-b"[1]);
  }

  lemma SampleOthers(cl: Classes)
    ensures PieceOk(cl, Escape("", "@{}|", "")) && !PieceOk(cl, Escape("", "'", ""))
    ensures PieceOk(cl, Printf('s')) && PieceOk(cl, Printf('d')) && !PieceOk(cl, Printf('x'))
    ensures PieceOk(cl, Plain('%')) && !PieceOk(cl, Plain('@')) && !PieceOk(cl, Plain('{')) && !PieceOk(cl, Plain('}'))
  {
    assert "'"[0] in "'";
  }

  /** A literal percent sign must not run into `s` or `d`, nor a link's key into more of a key. */
  predicate Delimited(cl: Classes, p: Piece, next: string) {
    match p
    case Plain(c) => c == '%' && next != [] ==> next[0] != 's' && next[0] != 'd'
    case Link(_, _) => next != [] ==> !KeyChar(cl, next[0])
    case _ => true
  }

  predicate WellFormed(cl: Classes, ps: seq<Piece>) {
    ps == [] || (PieceOk(cl, ps[0]) && Delimited(cl, ps[0], Render(ps[1..])) && WellFormed(cl, ps[1..]))
  }

  // ----- The scanner as a function of a text and a position -----

  /** End of the longest run of characters satisfying `p` from `j`. */
  function RunEnd(p: char -> bool, text: string, j: nat): (n: nat)
    requires j <= |text|
    ensures j <= n <= |text|
    decreases |text| - j
  {
    if j < |text| && p(text[j]) then RunEnd(p, text, j + 1) else j
  }

  /** Position of the first `c` from `j`, or the end of the text. */
  function FindFrom(c: char, text: string, j: nat): (n: nat)
    requires j <= |text|
    ensures j <= n <= |text|
    decreases |text| - j
  {
    if j < |text| && text[j] != c then FindFrom(c, text, j + 1) else j
  }

  /** End of `text[j..e]` without its trailing characters satisfying `p`. */
  function TrimTo(p: char -> bool, text: string, j: nat, e: nat): (n: nat)
    requires j <= e <= |text|
    ensures j <= n <= e
  {
    if j < e && p(text[e - 1]) then TrimTo(p, text, j, e - 1) else e
  }

  /** A link whose modifier is read and whose `:key` starts at `m`. */
  function KeyAt(cl: Classes, text: string, modifier: string, m: nat): Option<Piece>
    requires m <= |text|
  {
    if m == |text| || text[m] != ':' then None
    else
      var k := RunEnd(c => KeyChar(cl, c), text, m + 1);
      if k == m + 1 then None else Some(Link(modifier, text[m + 1..k]))
  }

  function LinkAt(cl: Classes, text: string, j: nat): Option<Piece>
    requires j <= |text|
  {
    if j < |text| && text[j] == '.' then
      var m := RunEnd(IdentChar, text, j + 1);
      if Ident(text[j + 1..m]) then KeyAt(cl, text, text[j + 1..m], m) else None
    else KeyAt(cl, text, [], j)
  }

  /** An escape opened at `i`, whose quote is at `j`. */
  function EscapeAt(cl: Classes, text: string, i: nat, j: nat): Option<Piece>
    requires i < j < |text|
  {
    var end := FindFrom('\'', text, j + 1);
    if end == |text| then None
    else
      var k := RunEnd(cl.space, text, end + 1);
      if k == |text| || text[k] != '}' then None
      else Some(Escape(text[i + 1..j], text[j + 1..end], text[end + 1..k]))
  }

  /** A placeholder opened at `i`, whose name starts at `j`. */
  function PlaceholderAt(cl: Classes, text: string, i: nat, j: nat): Option<Piece>
    requires i < j <= |text|
  {
    var end := FindFrom('}', text, j);
    var m := TrimTo(cl.space, text, j, end);
    if end == |text| || !(Ident(text[j..m]) || Index(cl, text[j..m])) then None
    else Some(Placeholder(text[i + 1..j], text[j..m], text[m..end]))
  }

  function BraceAt(cl: Classes, text: string, i: nat): Option<Piece>
    requires i < |text|
  {
    var j := RunEnd(cl.space, text, i + 1);
    if j < |text| && text[j] == '\'' then EscapeAt(cl, text, i, j) else PlaceholderAt(cl, text, i, j)
  }

  /** The piece at a position, if one starts there. */
  function PieceAt(cl: Classes, text: string, i: nat): Option<Piece>
    requires i < |text|
  {
    if text[i] == '%' && i + 1 < |text| && (text[i + 1] == 's' || text[i + 1] == 'd') then Some(Printf(text[i + 1]))
    else if text[i] == '@' then LinkAt(cl, text, i + 1)
    else if text[i] == '}' then None
    else if text[i] != '{' then Some(Plain(text[i]))
    else BraceAt(cl, text, i)
  }

  // ----- Occurrences of strings in the text -----

  predicate Match(text: string, i: nat, w: string) {
    i + |w| <= |text| && forall k :: i <= k < i + |w| ==> text[k] == w[k - i]
  }

  lemma MatchIsSlice(text: string, i: nat, w: string)
    ensures Match(text, i, w) <==> i + |w| <= |text| && text[i..i + |w|] == w
  {
    if i + |w| <= |text| && text[i..i + |w|] == w {
      forall k | i <= k < i + |w| ensures text[k] == w[k - i] { assert text[i..i + |w|][k - i] == text[k]; }
    }
  }

  lemma MatchConcat(text: string, i: nat, a: string, b: string)
    ensures Match(text, i, a + b) <==> Match(text, i, a) && Match(text, i + |a|, b)
  {
    if Match(text, i, a + b) {
      forall k | i + |a| <= k < i + |a| + |b| ensures text[k] == b[k - (i + |a|)] { assert text[k] == (a + b)[k - i]; }
    }
  }

  lemma MatchChar(text: string, i: nat, c: char)
    ensures Match(text, i, [c]) <==> i < |text| && text[i] == c
  {
  }

  lemma MatchCons(text: string, i: nat, c: char, w: string)
    ensures Match(text, i, [c] + w) <==> i < |text| && text[i] == c && Match(text, i + 1, w)
  {
    MatchConcat(text, i, [c], w);
    MatchChar(text, i, c);
  }

  lemma {:induction false} MatchModified(text: string, i: nat, modifier: string, rest: string)
    ensures Match(text, i, Modified(modifier, rest))
       <==> var m := i + 1 + |modifier|;
            && m < |text| && text[i] == '.' && Match(text, i + 1, modifier) && text[m] == ':'
                && Match(text, m + 1, rest)
  {
    MatchCons(text, i, '.', modifier + ([':'] + rest));
    MatchConcat(text, i + 1, modifier, [':'] + rest);
    MatchCons(text, i + 1 + |modifier|, ':', rest);
  }

  lemma {:induction false} MatchQuoted(text: string, j: nat, body: string, rest: string)
    ensures Match(text, j, Quoted(body, rest))
       <==> var end := j + 1 + |body|;
            && end < |text| && text[j] == '\'' && Match(text, j + 1, body) && text[end] == '\''
                && Match(text, end + 1, rest)
  {
    MatchCons(text, j, '\'', body + (['\''] + rest));
    MatchConcat(text, j + 1, body, ['\''] + rest);
    MatchCons(text, j + 1 + |body|, '\'', rest);
  }

  lemma {:induction false} MatchClosed(text: string, i: nat, w: string)
    ensures Match(text, i, w + ['}']) <==> i + |w| < |text| && Match(text, i, w) && text[i + |w|] == '}'
  {
    MatchConcat(text, i, w, ['}']);
    MatchChar(text, i + |w|, '}');
  }

  /** The piece is written in the text from `i`, part by part. */
  predicate Laid(text: string, i: nat, p: Piece) {
    match p
    case Plain(c) => i < |text| && text[i] == c
    case Printf(c) => i + 1 < |text| && text[i] == '%' && text[i + 1] == c
    case Link(modifier, key) =>
      var m := if modifier == [] then i + 1 else i + 2 + |modifier|;
      && m + 1 + |key| <= |text| && text[i] == '@' && text[m] == ':' && text[m + 1..m + 1 + |key|] == key
      && (modifier != [] ==> text[i + 1] == '.' && text[i + 2..m] == modifier)
    case Escape(before, body, after) =>
      var j := i + 1 + |before|;
      var end := j + 1 + |body|;
      var k := end + 1 + |after|;
      && k < |text| && text[i] == '{' && text[j] == '\'' && text[end] == '\'' && text[k] == '}'
      && text[i + 1..j] == before && text[j + 1..end] == body && text[end + 1..k] == after
    case Placeholder(before, body, after) =>
      var j := i + 1 + |before|;
      var m := j + |body|;
      var end := m + |after|;
      && end < |text| && text[i] == '{' && text[end] == '}'
      && text[i + 1..j] == before && text[j..m] == body && text[m..end] == after
  }

  lemma {:induction false} MatchPlainLink(text: string, i: nat, key: string)
    ensures Match(text, i + 1, LinkBody([], key)) && i < |text| && text[i] == '@' <==> Laid(text, i, Link([], key))
  {
    assert LinkBody([], key) == [':'] + key;
    MatchCons(text, i + 1, ':', key);
    MatchIsSlice(text, i + 2, key);
  }

  lemma {:induction false} MatchModifiedLink(text: string, i: nat, modifier: string, key: string)
    requires modifier != []
    ensures Match(text, i + 1, LinkBody(modifier, key)) && i < |text| && text[i] == '@'
        <==> Laid(text, i, Link(modifier, key))
  {
    MatchModified(text, i + 1, modifier, key);
    MatchIsSlice(text, i + 2, modifier);
    MatchIsSlice(text, i + 3 + |modifier|, key);
  }

  predicate EscapeParts(text: string, i: nat, before: string, body: string, after: string) {
    var j := i + |before|;
    var end := j + 1 + |body|;
    var k := end + 1 + |after|;
    && k < |text| && text[j] == '\'' && text[end] == '\'' && text[k] == '}'
    && Match(text, i, before) && Match(text, j + 1, body) && Match(text, end + 1, after)
  }

  lemma {:induction false} MatchEscapeParts(text: string, i: nat, before: string, body: string, after: string)
    ensures Match(text, i, EscapeBody(before, body, after)) <==> EscapeParts(text, i, before, body, after)
  {
    var j := i + |before|;
    MatchConcat(text, i, before, Quoted(body, after + ['}']));
    MatchQuoted(text, j, body, after + ['}']);
    MatchClosed(text, j + 2 + |body|, after);
  }

  lemma {:induction false} EscapePartsLaid(text: string, i: nat, before: string, body: string, after: string)
    ensures EscapeParts(text, i + 1, before, body, after) && text[i] == '{'
        <==> Laid(text, i, Escape(before, body, after))
  {
    var j := i + 1 + |before|;
    MatchIsSlice(text, i + 1, before);
    MatchIsSlice(text, j + 1, body);
    MatchIsSlice(text, j + 2 + |body|, after);
  }

  lemma {:induction false} MatchEscape(text: string, i: nat, before: string, body: string, after: string)
    ensures Match(text, i + 1, EscapeBody(before, body, after)) && i < |text| && text[i] == '{'
       <==> Laid(text, i, Escape(before, body, after))
  {
    MatchEscapeParts(text, i + 1, before, body, after);
    EscapePartsLaid(text, i, before, body, after);
  }

  lemma {:induction false} MatchPlaceholderParts(text: string, i: nat, before: string, body: string, after: string)
    ensures Match(text, i, PlaceholderBody(before, body, after))
       <==> var j := i + |before|;
            var m := j + |body|;
            var end := m + |after|;
            end < |text| && text[end] == '}' && Match(text, i, before) && Match(text, j, body) && Match(text, m, after)
  {
    var j := i + |before|;
    MatchConcat(text, i, before, (body + after) + ['}']);
    MatchClosed(text, j, body + after);
    MatchConcat(text, j, body, after);
  }

  lemma {:induction false} MatchPlaceholder(text: string, i: nat, before: string, body: string, after: string)
    ensures Match(text, i + 1, PlaceholderBody(before, body, after)) && i < |text| && text[i] == '{'
       <==> Laid(text, i, Placeholder(before, body, after))
  {
    var j := i + 1 + |before|;
    MatchPlaceholderParts(text, i + 1, before, body, after);
    MatchIsSlice(text, i + 1, before);
    MatchIsSlice(text, j, body);
    MatchIsSlice(text, j + |body|, after);
  }

  /** Laid out part by part is the same as occurring as a string. */
  lemma {:induction false} LaidIff(text: string, i: nat, p: Piece)
    ensures Laid(text, i, p) <==> Match(text, i, Text(p))
  {
    MatchCons(text, i, Mark(p), Body(p));
    match p {
      case Plain(_) =>
      case Printf(c) => MatchChar(text, i + 1, c);
      case Link(modifier, key) =>
        if modifier == [] {
          MatchPlainLink(text, i, key);
        } else {
          MatchModifiedLink(text, i, modifier, key);
        }
      case Escape(before, body, after) => MatchEscape(text, i, before, body, after);
      case Placeholder(before, body, after) => MatchPlaceholder(text, i, before, body, after);
    }
  }

  lemma LaidFits(text: string, i: nat, p: Piece)
    requires Laid(text, i, p)
    ensures i + Size(p) <= |text|
  {
  }

  // ----- Runs -----

  lemma {:induction false} RunEndSpec(p: char -> bool, text: string, j: nat)
    requires j <= |text|
    ensures All(p, text[j..RunEnd(p, text, j)]) && (RunEnd(p, text, j) < |text| ==> !p(text[RunEnd(p, text, j)]))
    decreases |text| - j
  {
    if j < |text| && p(text[j]) {
      RunEndSpec(p, text, j + 1);
      assert text[j..RunEnd(p, text, j)] == [text[j]] + text[j + 1..RunEnd(p, text, j + 1)];
    }
  }

  lemma {:induction false} RunEndIs(p: char -> bool, text: string, j: nat, n: nat)
    requires j <= n <= |text| && All(p, text[j..n]) && (n < |text| ==> !p(text[n]))
    ensures RunEnd(p, text, j) == n
    decreases |text| - j
  {
    if j < n {
      assert text[j] == text[j..n][0];
      assert text[j + 1..n] == text[j..n][1..];
      RunEndIs(p, text, j + 1, n);
    }
  }

  lemma {:induction false} FindFromSpec(c: char, text: string, j: nat)
    requires j <= |text|
    ensures c !in text[j..FindFrom(c, text, j)] && (FindFrom(c, text, j) < |text| ==> text[FindFrom(c, text, j)] == c)
    decreases |text| - j
  {
    if j < |text| && text[j] != c {
      FindFromSpec(c, text, j + 1);
      assert text[j..FindFrom(c, text, j)] == [text[j]] + text[j + 1..FindFrom(c, text, j + 1)];
    }
  }

  lemma {:induction false} FindFromIs(c: char, text: string, j: nat, n: nat)
    requires j <= n < |text| && c !in text[j..n] && text[n] == c
    ensures FindFrom(c, text, j) == n
    decreases |text| - j
  {
    if j < n {
      assert text[j] == text[j..n][0];
      assert text[j + 1..n] == text[j..n][1..];
      FindFromIs(c, text, j + 1, n);
    }
  }

  lemma {:induction false} TrimToSpec(p: char -> bool, text: string, j: nat, e: nat)
    requires j <= e <= |text|
    ensures All(p, text[TrimTo(p, text, j, e)..e])
    decreases e
  {
    if j < e && p(text[e - 1]) {
      TrimToSpec(p, text, j, e - 1);
      var m := TrimTo(p, text, j, e);
      assert text[m..e] == text[m..e - 1] + [text[e - 1]];
    }
  }

  lemma {:induction false} TrimToIs(p: char -> bool, text: string, j: nat, m: nat, e: nat)
    requires j < m <= e <= |text| && !p(text[m - 1]) && All(p, text[m..e])
    ensures TrimTo(p, text, j, e) == m
    decreases e
  {
    if m < e {
      assert text[e - 1] == text[m..e][e - 1 - m];
      assert text[m..e - 1] == text[m..e][..e - 1 - m];
      TrimToIs(p, text, j, m, e - 1);
    }
  }

  // ----- The scanner reads exactly the pieces that occur -----

  /** `p` occurs at `i` and ends there as a piece. */
  predicate Occurs(cl: Classes, p: Piece, text: string, i: nat) {
    Laid(text, i, p) && PieceOk(cl, p) && Delimited(cl, p, text[i + Size(p)..])
  }

  lemma {:induction false} LinkComplete(cl: Classes, p: Piece, text: string, i: nat)
    requires p.Link? && Occurs(cl, p, text, i)
    ensures LinkAt(cl, text, i + 1) == Some(p)
  {
    var m := if p.modifier == [] then i + 1 else i + 2 + |p.modifier|;
    var k := m + 1 + |p.key|;
    assert k < |text| ==> text[i + Size(p)..][0] == text[k];
    RunEndIs(c => KeyChar(cl, c), text, m + 1, k);
    if p.modifier != [] {
      RunEndIs(IdentChar, text, i + 2, m);
    }
  }

  lemma {:induction false} EscapeAtComplete(cl: Classes, text: string, i: nat, j: nat, end: nat, k: nat)
    requires i < j < end < k < |text| && text[end] == '\'' && text[k] == '}' && !cl.space('}')
    requires '\'' !in text[j + 1..end] && All(cl.space, text[end + 1..k])
    ensures EscapeAt(cl, text, i, j) == Some(Escape(text[i + 1..j], text[j + 1..end], text[end + 1..k]))
  {
    FindFromIs('\'', text, j + 1, end);
    RunEndIs(cl.space, text, end + 1, k);
  }

  lemma {:induction false} EscapeComplete(cl: Classes, text: string, i: nat, before: string, body: string,
                                          after: string)
    requires !cl.space('\'') && !cl.space('}') && Laid(text, i, Escape(before, body, after))
        && PieceOk(cl, Escape(before, body, after))
    ensures BraceAt(cl, text, i) == Some(Escape(before, body, after))
  {
    var j := i + 1 + |before|;
    var end := j + 1 + |body|;
    RunEndIs(cl.space, text, i + 1, j);
    EscapeAtComplete(cl, text, i, j, end, end + 1 + |after|);
  }

  lemma {:induction false} PlaceholderComplete(cl: Classes, p: Piece, text: string, i: nat)
    requires Sane(cl) && p.Placeholder? && Laid(text, i, p) && PieceOk(cl, p)
    ensures BraceAt(cl, text, i) == Some(p)
  {
    var j := i + 1 + |p.before|;
    var m := j + |p.body|;
    var end := m + |p.after|;
    assert text[j] == text[j..m][0] && text[m - 1] == text[j..m][|p.body| - 1];
    RunEndIs(cl.space, text, i + 1, j);
    NoBrace(cl, p, text, j, m, end);
    FindFromIs('}', text, j, end);
    TrimToIs(cl.space, text, j, m, end);
  }

  lemma {:induction false} NoBrace(cl: Classes, p: Piece, text: string, j: nat, m: nat, end: nat)
    requires Sane(cl) && p.Placeholder? && PieceOk(cl, p) && j <= m <= end <= |text|
    requires text[j..m] == p.body && text[m..end] == p.after
    ensures '}' !in text[j..end]
  {
    assert '}' !in p.body && '}' !in p.after;
    assert text[j..end] == text[j..m] + text[m..end];
  }

  /** Completeness: the piece that occurs is the piece that is read. */
  lemma {:induction false} PieceAtComplete(cl: Classes, p: Piece, text: string, i: nat)
    requires Sane(cl) && Occurs(cl, p, text, i)
    ensures i < |text| && PieceAt(cl, text, i) == Some(p)
  {
    match p {
      case Plain(c) => assert i + 1 < |text| ==> text[i + 1..][0] == text[i + 1];
      case Printf(c) =>
      case Link(_, _) => LinkComplete(cl, p, text, i);
      case Escape(before, body, after) => EscapeComplete(cl, text, i, before, body, after);
      case Placeholder(_, _, _) => PlaceholderComplete(cl, p, text, i);
    }
  }

  lemma {:induction false} KeySound(cl: Classes, text: string, i: nat, modifier: string, m: nat)
    requires i < m <= |text| && text[i] == '@' && KeyAt(cl, text, modifier, m).Some?
    requires if modifier == [] then m == i + 1
             else m == i + 2 + |modifier| && text[i + 1] == '.' && text[i + 2..m] == modifier && Ident(modifier)
    ensures Occurs(cl, KeyAt(cl, text, modifier, m).value, text, i)
  {
    var k := RunEnd(c => KeyChar(cl, c), text, m + 1);
    RunEndSpec(c => KeyChar(cl, c), text, m + 1);
    assert i + Size(Link(modifier, text[m + 1..k])) == k;
  }

  lemma {:induction false} LinkSound(cl: Classes, text: string, i: nat)
    requires i < |text| && text[i] == '@' && LinkAt(cl, text, i + 1).Some?
    ensures Occurs(cl, LinkAt(cl, text, i + 1).value, text, i)
  {
    if text[i + 1] == '.' {
      var m := RunEnd(IdentChar, text, i + 2);
      KeySound(cl, text, i, text[i + 2..m], m);
    } else {
      KeySound(cl, text, i, [], i + 1);
    }
  }

  lemma {:induction false} EscapeLaid(text: string, i: nat, j: nat, end: nat, k: nat)
    requires i < j < end < k < |text| && text[i] == '{' && text[j] == '\'' && text[end] == '\'' && text[k] == '}'
    ensures Laid(text, i, Escape(text[i + 1..j], text[j + 1..end], text[end + 1..k]))
  {
  }

  lemma EscapeOccurs(cl: Classes, p: Piece, text: string, i: nat)
    requires p.Escape? && Laid(text, i, p) && PieceOk(cl, p)
    ensures Occurs(cl, p, text, i)
  {
    LaidFits(text, i, p);
  }

  lemma {:induction false} EscapeAtLaid(cl: Classes, text: string, i: nat, j: nat)
    requires i < j < |text| && text[i] == '{' && text[j] == '\'' && EscapeAt(cl, text, i, j).Some?
    ensures Laid(text, i, EscapeAt(cl, text, i, j).value)
  {
    var end := FindFrom('\'', text, j + 1);
    FindFromSpec('\'', text, j + 1);
    EscapeLaid(text, i, j, end, RunEnd(cl.space, text, end + 1));
  }

  lemma {:induction false} EscapeAtOk(cl: Classes, text: string, i: nat, j: nat)
    requires i < j < |text| && All(cl.space, text[i + 1..j]) && EscapeAt(cl, text, i, j).Some?
    ensures PieceOk(cl, EscapeAt(cl, text, i, j).value)
  {
    var end := FindFrom('\'', text, j + 1);
    var k := RunEnd(cl.space, text, end + 1);
    FindFromSpec('\'', text, j + 1);
    RunEndSpec(cl.space, text, end + 1);
    EscapeOk(cl, text[i + 1..j], text[j + 1..end], text[end + 1..k]);
  }

  lemma {:induction false} EscapeSound(cl: Classes, text: string, i: nat, j: nat)
    requires i < j < |text| && text[i] == '{' && text[j] == '\'' && All(cl.space, text[i + 1..j])
    requires EscapeAt(cl, text, i, j).Some?
    ensures Occurs(cl, EscapeAt(cl, text, i, j).value, text, i)
  {
    EscapeAtLaid(cl, text, i, j);
    EscapeAtOk(cl, text, i, j);
    EscapeOccurs(cl, EscapeAt(cl, text, i, j).value, text, i);
  }

  lemma EscapeOk(cl: Classes, before: string, body: string, after: string)
    requires All(cl.space, before) && '\'' !in body && All(cl.space, after)
    ensures PieceOk(cl, Escape(before, body, after))
  {
  }

  lemma {:induction false} PlaceholderSound(cl: Classes, text: string, i: nat, j: nat)
    requires i < j <= |text| && text[i] == '{' && All(cl.space, text[i + 1..j])
    requires PlaceholderAt(cl, text, i, j).Some?
    ensures Occurs(cl, PlaceholderAt(cl, text, i, j).value, text, i)
  {
    var end := FindFrom('}', text, j);
    var m := TrimTo(cl.space, text, j, end);
    FindFromSpec('}', text, j);
    TrimToSpec(cl.space, text, j, end);
  }

  lemma {:induction false} BraceSound(cl: Classes, text: string, i: nat)
    requires i < |text| && text[i] == '{' && BraceAt(cl, text, i).Some?
    ensures Occurs(cl, BraceAt(cl, text, i).value, text, i)
  {
    var j := RunEnd(cl.space, text, i + 1);
    RunEndSpec(cl.space, text, i + 1);
    if j < |text| && text[j] == '\'' { EscapeSound(cl, text, i, j); } else { PlaceholderSound(cl, text, i, j); }
  }

  /** Soundness: the piece that is read occurs. */
  lemma {:induction false} PieceAtSound(cl: Classes, text: string, i: nat)
    requires i < |text| && PieceAt(cl, text, i).Some?
    ensures Occurs(cl, PieceAt(cl, text, i).value, text, i)
  {
    if text[i] == '@' {
      LinkSound(cl, text, i);
    } else if text[i] == '{' {
      BraceSound(cl, text, i);
    } else {
      assert i + 1 < |text| ==> text[i + 1..][0] == text[i + 1];
    }
  }

  lemma {:induction false} PieceAtFits(cl: Classes, text: string, i: nat)
    requires i < |text| && PieceAt(cl, text, i).Some?
    ensures i + Size(PieceAt(cl, text, i).value) <= |text|
  {
    PieceAtSound(cl, text, i);
    LaidFits(text, i, PieceAt(cl, text, i).value);
  }

  // ----- Whole messages -----

  /** The pieces read from `i` until the end, or until the first position that starts none. */
  function ParseFrom(cl: Classes, text: string, i: nat): (r: (seq<Piece>, bool))
    requires i <= |text|
    decreases |text| - i
  {
    if i == |text| then ([], true)
    else
      match PieceAt(cl, text, i)
      case None => ([], false)
      case Some(p) =>
        PieceAtFits(cl, text, i);
        var rest := ParseFrom(cl, text, i + Size(p));
        ([p] + rest.0, rest.1)
  }

  function Parse(cl: Classes, text: string): (seq<Piece>, bool) {
    ParseFrom(cl, text, 0)
  }

  /** The pieces `ps` occur one after the other from `i` to the end of the text. */
  predicate Spells(cl: Classes, text: string, i: nat, ps: seq<Piece>)
    decreases |ps|
  {
    if ps == [] then i == |text| else Occurs(cl, ps[0], text, i) && Spells(cl, text, i + Size(ps[0]), ps[1..])
  }

  lemma {:induction false} ParseStep(cl: Classes, text: string, i: nat, p: Piece)
    requires i < |text| && PieceAt(cl, text, i) == Some(p)
    ensures i + Size(p) <= |text|
    ensures ParseFrom(cl, text, i) == ([p] + ParseFrom(cl, text, i + Size(p)).0, ParseFrom(cl, text, i + Size(p)).1)
  {
    PieceAtFits(cl, text, i);
  }

  lemma {:induction false} ParseOfSpelled(cl: Classes, text: string, i: nat, ps: seq<Piece>)
    requires Sane(cl) && i <= |text| && Spells(cl, text, i, ps)
    ensures ParseFrom(cl, text, i) == (ps, true)
    decreases |ps|
  {
    if ps != [] {
      PieceAtComplete(cl, ps[0], text, i);
      ParseStep(cl, text, i, ps[0]);
      ParseOfSpelled(cl, text, i + Size(ps[0]), ps[1..]);
      assert ps == [ps[0]] + ps[1..];
    }
  }

  lemma {:induction false} SpelledByParse(cl: Classes, text: string, i: nat)
    requires i <= |text| && ParseFrom(cl, text, i).1
    ensures Spells(cl, text, i, ParseFrom(cl, text, i).0)
    decreases |text| - i
  {
    if i < |text| {
      var p := PieceAt(cl, text, i).value;
      PieceAtSound(cl, text, i);
      ParseStep(cl, text, i, p);
      SpelledByParse(cl, text, i + Size(p));
      SpellsCons(cl, text, i, p, ParseFrom(cl, text, i + Size(p)).0);
    }
  }

  lemma SpellsCons(cl: Classes, text: string, i: nat, p: Piece, ps: seq<Piece>)
    requires Occurs(cl, p, text, i) && Spells(cl, text, i + Size(p), ps)
    ensures Spells(cl, text, i, [p] + ps)
  {
    assert ([p] + ps)[1..] == ps;
  }

  /** A piece in front of `next`, as a string and as an occurrence. */
  lemma {:induction false} InFrontIff(text: string, i: nat, p: Piece, next: string)
    requires i <= |text|
    ensures text[i..] == Text(p) + next <==> Laid(text, i, p) && text[i + Size(p)..] == next
  {
    LaidFitsIff(text, i, p);
    InFrontOf(text, i, Text(p), next, Size(p), Laid(text, i, p));
  }

  lemma {:induction false} InFrontOf(text: string, i: nat, w: string, next: string, n: nat, laid: bool)
    requires i <= |text| && n == |w| && (laid <==> i + |w| <= |text| && text[i..i + |w|] == w)
    ensures text[i..] == w + next <==> laid && text[i + n..] == next
  {
    SliceIff(text, i, w, next);
  }

  lemma {:induction false} LaidFitsIff(text: string, i: nat, p: Piece)
    ensures |Text(p)| == Size(p)
    ensures Laid(text, i, p) <==> i + |Text(p)| <= |text| && text[i..i + |Text(p)|] == Text(p)
  {
    SizeIsLength(p);
    LaidIff(text, i, p);
    MatchIsSlice(text, i, Text(p));
  }

  lemma {:induction false} SliceIff(text: string, i: nat, w: string, next: string)
    requires i <= |text|
    ensures text[i..] == w + next <==> i + |w| <= |text| && text[i..i + |w|] == w && text[i + |w|..] == next
  {
    var m := i + |w|;
    if m <= |text| {
      assert text[i..] == text[i..m] + text[m..];
      assert text[i..][..|w|] == text[i..m] && text[i..][|w|..] == text[m..];
      assert (w + next)[..|w|] == w && (w + next)[|w|..] == next;
    }
  }

  lemma {:induction false} RenderIfSpells(cl: Classes, text: string, i: nat, ps: seq<Piece>)
    requires i <= |text| && Spells(cl, text, i, ps)
    ensures WellFormed(cl, ps) && Render(ps) == text[i..]
    decreases |ps|
  {
    if ps != [] {
      LaidFits(text, i, ps[0]);
      RenderIfSpells(cl, text, i + Size(ps[0]), ps[1..]);
      InFrontIff(text, i, ps[0], Render(ps[1..]));
    }
  }

  lemma {:induction false} SpellsIfRendered(cl: Classes, text: string, i: nat, ps: seq<Piece>)
    requires i <= |text| && WellFormed(cl, ps) && Render(ps) == text[i..]
    ensures Spells(cl, text, i, ps)
    decreases |ps|
  {
    if ps != [] {
      InFrontIff(text, i, ps[0], Render(ps[1..]));
      LaidFits(text, i, ps[0]);
      SpellsIfRendered(cl, text, i + Size(ps[0]), ps[1..]);
    }
  }

  /** Scanning a rendered message returns exactly its pieces: the grammar is unambiguous. */
  lemma {:induction false} ParseOfRender(cl: Classes, ps: seq<Piece>)
    requires Sane(cl) && WellFormed(cl, ps)
    ensures Parse(cl, Render(ps)) == (ps, true)
  {
    assert Render(ps)[0..] == Render(ps);
    SpellsIfRendered(cl, Render(ps), 0, ps);
    ParseOfSpelled(cl, Render(ps), 0, ps);
  }

  /** An accepted message is the rendering of the pieces read from it. */
  lemma {:induction false} RenderOfParse(cl: Classes, text: string)
    requires Parse(cl, text).1
    ensures WellFormed(cl, Parse(cl, text).0) && Render(Parse(cl, text).0) == text
  {
    SpelledByParse(cl, text, 0);
    RenderIfSpells(cl, text, 0, Parse(cl, text).0);
    assert text[0..] == text;
  }

  /** `compilable` holds exactly for the messages of the grammar, and the tokens are theirs. */
  lemma {:induction false} ScanIff(cl: Classes, text: string, tokens: seq<string>)
    requires Sane(cl)
    ensures Parse(cl, text).1 && Tokens(Parse(cl, text).0) == tokens
       <==> exists ps :: WellFormed(cl, ps) && Render(ps) == text && Tokens(ps) == tokens
  {
    if Parse(cl, text).1 { RenderOfParse(cl, text); }
    forall ps | WellFormed(cl, ps) && Render(ps) == text
      ensures Parse(cl, text) == (ps, true)
    {
      ParseOfRender(cl, ps);
    }
  }

  // ----- The scanner's loop -----

  /** Reading on from `i` after the pieces `done` gives `all`. */
  ghost predicate Reached(cl: Classes, text: string, i: nat, done: seq<Piece>, all: (seq<Piece>, bool)) {
    i <= |text| && all == (done + ParseFrom(cl, text, i).0, ParseFrom(cl, text, i).1)
  }

  lemma {:induction false} Advance(cl: Classes, text: string, i: nat, done: seq<Piece>, all: (seq<Piece>, bool))
    requires i < |text| && Reached(cl, text, i, done, all)
    ensures
      match PieceAt(cl, text, i)
      case None => all == (done, false)
      case Some(p) => Reached(cl, text, i + Size(p), done + [p], all)
  {
    match PieceAt(cl, text, i)
    case None => assert done + [] == done;
    case Some(p) =>
      ParseStep(cl, text, i, p);
      var rest := ParseFrom(cl, text, i + Size(p)).0;
      assert (done + [p]) + rest == done + ([p] + rest);
  }

  lemma {:induction false} TokensSnoc(ps: seq<Piece>, p: Piece)
    ensures Tokens(ps + [p]) == Tokens(ps) + Token(p)
  {
    if ps == [] {
      assert ps + [p] == [p];
      TokensOne(p);
    } else {
      TokensSnoc(ps[1..], p);
      TailSnoc(ps, p);
      Regroup(Token(ps[0]), Tokens(ps[1..]), Token(p));
    }
  }

  lemma TokensOne(p: Piece)
    ensures Tokens([p]) == Token(p)
  {
    assert [p][1..] == [] && Token(p) + [] == Token(p);
  }

  lemma TailSnoc(ps: seq<Piece>, p: Piece)
    requires ps != []
    ensures (ps + [p])[0] == ps[0] && (ps + [p])[1..] == ps[1..] + [p]
  {
  }

  lemma Regroup(a: seq<string>, b: seq<string>, c: seq<string>)
    ensures a + (b + c) == (a + b) + c
  {
  }

  /** The tokens of a piece found at `i` and the position after it. */
  function Result(h: Option<Piece>, i: nat): Option<(seq<string>, nat)> {
    match h
    case None => None
    case Some(p) => Some((Token(p), i + Size(p)))
  }

  method SkipSpace(cl: Classes, text: string, j: nat) returns (k: nat)
    requires j <= |text|
    ensures k == RunEnd(cl.space, text, j)
  {
    k := j;
    while k < |text| && cl.space(text[k])
      invariant j <= k <= |text| && RunEnd(cl.space, text, k) == RunEnd(cl.space, text, j)
    {
      k := k + 1;
    }
  }

  method ScanEscape(cl: Classes, text: string, i: nat, j: nat) returns (r: Option<(seq<string>, nat)>)
    requires i < j < |text|
    ensures r == Result(EscapeAt(cl, text, i, j), i)
  {
    var end := FindFrom('\'', text, j + 1);
    if end == |text| { return None; }
    var k := SkipSpace(cl, text, end + 1);
    if k >= |text| || text[k] != '}' { return None; }
    return Some((["{'" + text[j + 1..end] + "'}"], k + 1));
  }

  /** The name needs no trimming on the left: `j` is after the white space. */
  method ScanPlaceholder(cl: Classes, text: string, i: nat, j: nat) returns (r: Option<(seq<string>, nat)>)
    requires i < j <= |text|
    ensures r == Result(PlaceholderAt(cl, text, i, j), i)
  {
    var end := FindFrom('}', text, j);
    if end == |text| { return None; }
    var name := text[j..TrimTo(cl.space, text, j, end)];
    if !(Ident(name) || Index(cl, name)) { return None; }
    return Some((["{" + name + "}"], end + 1));
  }

  /** One step at `i`: the tokens it appends and the next position, or nothing to reject. */
  method ScanOne(cl: Classes, text: string, i: nat) returns (r: Option<(seq<string>, nat)>)
    requires i < |text|
    ensures r == Result(PieceAt(cl, text, i), i)
  {
    var ch := text[i];
    if ch == '%' && i + 1 < |text| && (text[i + 1] == 's' || text[i + 1] == 'd') {
      return Some(([['%'] + [text[i + 1]]], i + 2));
    }
    if ch == '@' { return Result(LinkAt(cl, text, i + 1), i); }
    if ch == '}' { return None; }
    if ch != '{' { return Some(([], i + 1)); }
    var j := SkipSpace(cl, text, i + 1);
    if j < |text| && text[j] == '\'' {
      r := ScanEscape(cl, text, i, j);
    } else {
      r := ScanPlaceholder(cl, text, i, j);
    }
  }

  /** The tokens of a message and whether it compiles. */
  method ScanTokens(cl: Classes, text: string) returns (tokens: seq<string>, compilable: bool)
    ensures tokens == Tokens(Parse(cl, text).0)
    ensures compilable <==> Parse(cl, text).1
  {
    tokens := [];
    var i := 0;
    ghost var done: seq<Piece> := [];
    ghost var all := Parse(cl, text);
    assert [] + all.0 == all.0;
    while i < |text|
      invariant Reached(cl, text, i, done, all)
      invariant tokens == Tokens(done)
    {
      ghost var h := PieceAt(cl, text, i);
      var r := ScanOne(cl, text, i);
      Advance(cl, text, i, done, all);
      if r == None { return tokens, false; }
      TokensSnoc(done, h.value);
      done := done + [h.value];
      tokens := tokens + r.value.0;
      i := r.value.1;
    }
    assert done + [] == done;
    return tokens, true;
  }

  // ----- What a token stands for -----

  /** The same kind and the same content: the letter of a printf token, the modifier and the key of a
      link, the body of an escape, the name of a placeholder. */
  predicate SameContent(p: Piece, q: Piece) {
    match p
    case Plain(_) => false
    case Printf(c) => q.Printf? && q.c == c
    case Link(modifier, key) => q.Link? && q.modifier == modifier && q.key == key
    case Escape(_, body, _) => q.Escape? && q.body == body
    case Placeholder(_, body, _) => q.Placeholder? && q.body == body
  }

  lemma MarkFirst(p: Piece)
    ensures |TokenText(p)| > 0 && TokenText(p)[0] == Mark(p)
  {
  }

  lemma PlaceholderTokens(cl: Classes, p: Piece, q: Piece)
    requires Sane(cl) && PieceOk(cl, p) && PieceOk(cl, q) && p.Placeholder? && !q.Plain?
    ensures TokenText(p) == TokenText(q) <==> SameContent(p, q)
  {
    MarkFirst(q);
    var t := TokenText(p);
    assert t == ['{'] + p.body + ['}'] && t[1] == p.body[0] != '\'';
    match q
    case Placeholder(_, body, _) =>
      assert TokenText(q) == ['{'] + body + ['}'];
      SameInside(['{'], p.body, body, ['}']);
    case Escape(_, body, _) => assert TokenText(q)[1] == '\'';
    case _ =>
  }

  lemma EscapeTokens(cl: Classes, p: Piece, q: Piece)
    requires Sane(cl) && PieceOk(cl, p) && PieceOk(cl, q) && p.Escape? && !q.Plain? && !q.Placeholder?
    ensures TokenText(p) == TokenText(q) <==> SameContent(p, q)
  {
    MarkFirst(p);
    MarkFirst(q);
    match q
    case Escape(_, body, _) => SameInside("{'", p.body, body, "'}");
    case _ =>
  }

  lemma SameInside(before: string, a: string, b: string, after: string)
    ensures before + a + after == before + b + after <==> a == b
  {
    var s, t := before + a + after, before + b + after;
    if s == t {
      assert |a| == |b|;
      assert s[|before|..|before| + |a|] == a && t[|before|..|before| + |b|] == b;
    }
  }

  lemma LinkText(p: Piece)
    requires p.Link?
    ensures TokenText(p) == ['@'] + LinkBody(p.modifier, p.key) && |TokenText(p)| > 1
    ensures TokenText(p)[1] == if p.modifier == [] then ':' else '.'
  {
  }

  lemma SameKey(k: string, l: string)
    requires ['@'] + ([':'] + k) == ['@'] + ([':'] + l)
    ensures k == l
  {
    assert (['@'] + ([':'] + k))[2..] == k && (['@'] + ([':'] + l))[2..] == l;
  }

  lemma LinkTokens(cl: Classes, p: Piece, q: Piece)
    requires PieceOk(cl, p) && PieceOk(cl, q) && p.Link? && q.Link?
    ensures TokenText(p) == TokenText(q) <==> SameContent(p, q)
  {
    LinkText(p);
    LinkText(q);
    if TokenText(p) == TokenText(q) {
      if p.modifier == [] {
        SameKey(p.key, q.key);
      } else {
        SameModifier(p.modifier, p.key, q.modifier, q.key, TokenText(p));
      }
    }
  }

  lemma FirstColon(m: string, k: string, t: string)
    requires Ident(m) && t == ['@'] + Modified(m, k)
    ensures 2 + |m| < |t| && t[2 + |m|] == ':' && forall i :: 2 <= i < 2 + |m| ==> t[i] != ':'
  {
    forall i | 2 <= i < 2 + |m| ensures t[i] != ':' {
      assert t[i] == m[i - 2];
    }
  }

  /** A modifier has no colon, so the first colon ends it. */
  lemma SameModifier(m: string, k: string, n: string, l: string, t: string)
    requires Ident(m) && Ident(n) && t == ['@'] + Modified(m, k) && t == ['@'] + Modified(n, l)
    ensures m == n && k == l
  {
    FirstColon(m, k, t);
    FirstColon(n, l, t);
    assert t[2..2 + |m|] == m && t[2..2 + |n|] == n;
    assert t[3 + |m|..] == k && t[3 + |n|..] == l;
  }

  /** Two pieces have the same token if and only if they are of the same kind and have the same content;
      white space does not matter. */
  lemma TokenIff(cl: Classes, p: Piece, q: Piece)
    requires Sane(cl) && PieceOk(cl, p) && PieceOk(cl, q) && !p.Plain? && !q.Plain?
    ensures TokenText(p) == TokenText(q) <==> SameContent(p, q)
  {
    if p.Placeholder? {
      PlaceholderTokens(cl, p, q);
    } else if q.Placeholder? {
      PlaceholderTokens(cl, q, p);
    } else if p.Escape? {
      EscapeTokens(cl, p, q);
    } else if q.Escape? {
      EscapeTokens(cl, q, p);
    } else if p.Link? && q.Link? {
      LinkTokens(cl, p, q);
    } else {
      MarkFirst(p);
      MarkFirst(q);
      if p.Printf? && q.Printf? { assert TokenText(p)[1] == p.c && TokenText(q)[1] == q.c; }
    }
  }

  // The contents of a message, kind by kind, in order.

  function Names(ps: seq<Piece>): seq<string> {
    if ps == [] then [] else (if ps[0].Placeholder? then [ps[0].body] else []) + Names(ps[1..])
  }

  function Quotes(ps: seq<Piece>): seq<string> {
    if ps == [] then [] else (if ps[0].Escape? then [ps[0].body] else []) + Quotes(ps[1..])
  }

  function Letters(ps: seq<Piece>): seq<char> {
    if ps == [] then [] else (if ps[0].Printf? then [ps[0].c] else []) + Letters(ps[1..])
  }

  function Links(ps: seq<Piece>): seq<(string, string)> {
    if ps == [] then [] else (if ps[0].Link? then [(ps[0].modifier, ps[0].key)] else []) + Links(ps[1..])
  }

  /** As many placeholders of each name, escapes of each body, printf tokens of each letter, and links. */
  ghost predicate SameContents(ps: seq<Piece>, qs: seq<Piece>) {
    && multiset(Names(ps)) == multiset(Names(qs)) && multiset(Quotes(ps)) == multiset(Quotes(qs))
    && multiset(Letters(ps)) == multiset(Letters(qs)) && multiset(Links(ps)) == multiset(Links(qs))
  }

  /** How many pieces have the content of `p`. */
  ghost function Count(ps: seq<Piece>, p: Piece): nat {
    if ps == [] then 0 else (if SameContent(p, ps[0]) then 1 else 0) + Count(ps[1..], p)
  }

  ghost predicate AllOk(cl: Classes, ps: seq<Piece>) {
    forall i :: 0 <= i < |ps| ==> PieceOk(cl, ps[i])
  }

  lemma {:induction false} TokenCount(cl: Classes, ps: seq<Piece>, p: Piece)
    requires Sane(cl) && AllOk(cl, ps) && PieceOk(cl, p) && !p.Plain?
    ensures multiset(Tokens(ps))[TokenText(p)] == Count(ps, p)
  {
    if ps != [] {
      TokenCount(cl, ps[1..], p);
      if !ps[0].Plain? { TokenIff(cl, p, ps[0]); }
      assert multiset(Tokens(ps)) == multiset(Token(ps[0])) + multiset(Tokens(ps[1..]));
    }
  }

  lemma {:induction false} NameCount(ps: seq<Piece>, p: Piece)
    requires p.Placeholder?
    ensures Count(ps, p) == multiset(Names(ps))[p.body]
  {
    if ps != [] { NameCount(ps[1..], p); }
  }

  lemma {:induction false} QuoteCount(ps: seq<Piece>, p: Piece)
    requires p.Escape?
    ensures Count(ps, p) == multiset(Quotes(ps))[p.body]
  {
    if ps != [] { QuoteCount(ps[1..], p); }
  }

  lemma {:induction false} LetterCount(ps: seq<Piece>, p: Piece)
    requires p.Printf?
    ensures Count(ps, p) == multiset(Letters(ps))[p.c]
  {
    if ps != [] { LetterCount(ps[1..], p); }
  }

  lemma {:induction false} LinkCount(ps: seq<Piece>, p: Piece)
    requires p.Link?
    ensures Count(ps, p) == multiset(Links(ps))[(p.modifier, p.key)]
  {
    if ps != [] { LinkCount(ps[1..], p); }
  }

  lemma {:induction false} TokenOfPiece(ps: seq<Piece>, t: string) returns (i: nat)
    requires t in Tokens(ps)
    ensures i < |ps| && !ps[i].Plain? && TokenText(ps[i]) == t
  {
    if t in Token(ps[0]) {
      i := 0;
    } else {
      var j := TokenOfPiece(ps[1..], t);
      i := j + 1;
    }
  }

  lemma {:induction false} NameOfPiece(ps: seq<Piece>, n: string) returns (i: nat)
    requires n in Names(ps)
    ensures i < |ps| && ps[i].Placeholder? && ps[i].body == n
  {
    if ps[0].Placeholder? && ps[0].body == n { i := 0; } else { var j := NameOfPiece(ps[1..], n); i := j + 1; }
  }

  lemma {:induction false} QuoteOfPiece(ps: seq<Piece>, b: string) returns (i: nat)
    requires b in Quotes(ps)
    ensures i < |ps| && ps[i].Escape? && ps[i].body == b
  {
    if ps[0].Escape? && ps[0].body == b { i := 0; } else { var j := QuoteOfPiece(ps[1..], b); i := j + 1; }
  }

  lemma {:induction false} LetterOfPiece(ps: seq<Piece>, c: char) returns (i: nat)
    requires c in Letters(ps)
    ensures i < |ps| && ps[i].Printf? && ps[i].c == c
  {
    if ps[0].Printf? && ps[0].c == c { i := 0; } else { var j := LetterOfPiece(ps[1..], c); i := j + 1; }
  }

  lemma {:induction false} LinkOfPiece(ps: seq<Piece>, l: (string, string)) returns (i: nat)
    requires l in Links(ps)
    ensures i < |ps| && ps[i].Link? && (ps[i].modifier, ps[i].key) == l
  {
    if ps[0].Link? && (ps[0].modifier, ps[0].key) == l { i := 0; }
        else { var j := LinkOfPiece(ps[1..], l); i := j + 1; }
  }

  /** Equal contents give each piece's token the same number of occurrences. */
  lemma ContentsCount(cl: Classes, ps: seq<Piece>, qs: seq<Piece>, p: Piece)
    requires Sane(cl) && AllOk(cl, ps) && AllOk(cl, qs) && PieceOk(cl, p) && !p.Plain? && SameContents(ps, qs)
    ensures multiset(Tokens(ps))[TokenText(p)] == multiset(Tokens(qs))[TokenText(p)]
  {
    TokenCount(cl, ps, p);
    TokenCount(cl, qs, p);
    match p {
      case Printf(_) => LetterCount(ps, p); LetterCount(qs, p);
      case Link(_, _) => LinkCount(ps, p); LinkCount(qs, p);
      case Escape(_, _, _) => QuoteCount(ps, p); QuoteCount(qs, p);
      case Placeholder(_, _, _) => NameCount(ps, p); NameCount(qs, p);
    }
  }

  lemma TokensIfContents(cl: Classes, ps: seq<Piece>, qs: seq<Piece>)
    requires Sane(cl) && AllOk(cl, ps) && AllOk(cl, qs) && SameContents(ps, qs)
    ensures multiset(Tokens(ps)) == multiset(Tokens(qs))
  {
    forall t: string ensures multiset(Tokens(ps))[t] == multiset(Tokens(qs))[t] {
      SameTokenCount(cl, ps, qs, t);
    }
  }

  lemma SameTokenCount(cl: Classes, ps: seq<Piece>, qs: seq<Piece>, t: string)
    requires Sane(cl) && AllOk(cl, ps) && AllOk(cl, qs) && SameContents(ps, qs)
    ensures multiset(Tokens(ps))[t] == multiset(Tokens(qs))[t]
  {
    if t in Tokens(ps) {
      var i := TokenOfPiece(ps, t);
      ContentsCount(cl, ps, qs, ps[i]);
    } else if t in Tokens(qs) {
      var i := TokenOfPiece(qs, t);
      ContentsCount(cl, ps, qs, qs[i]);
    }
  }

  /** Equal tokens give each piece's content the same number of occurrences. */
  lemma TokensCount(cl: Classes, ps: seq<Piece>, qs: seq<Piece>, p: Piece)
    requires Sane(cl) && AllOk(cl, ps) && AllOk(cl, qs) && PieceOk(cl, p) && !p.Plain?
    requires multiset(Tokens(ps)) == multiset(Tokens(qs))
    ensures Count(ps, p) == Count(qs, p)
  {
    TokenCount(cl, ps, p);
    TokenCount(cl, qs, p);
  }

  lemma NamesIfTokens(cl: Classes, ps: seq<Piece>, qs: seq<Piece>)
    requires Sane(cl) && AllOk(cl, ps) && AllOk(cl, qs) && multiset(Tokens(ps)) == multiset(Tokens(qs))
    ensures multiset(Names(ps)) == multiset(Names(qs))
  {
    forall n: string ensures multiset(Names(ps))[n] == multiset(Names(qs))[n] {
      if n in Names(ps) || n in Names(qs) {
        var p;
        if n in Names(ps) { var i := NameOfPiece(ps, n); p := ps[i]; } else { var i := NameOfPiece(qs, n); p := qs[i]; }
        TokensCount(cl, ps, qs, p);
        NameCount(ps, p);
        NameCount(qs, p);
      }
    }
  }

  lemma QuotesIfTokens(cl: Classes, ps: seq<Piece>, qs: seq<Piece>)
    requires Sane(cl) && AllOk(cl, ps) && AllOk(cl, qs) && multiset(Tokens(ps)) == multiset(Tokens(qs))
    ensures multiset(Quotes(ps)) == multiset(Quotes(qs))
  {
    forall b: string ensures multiset(Quotes(ps))[b] == multiset(Quotes(qs))[b] {
      if b in Quotes(ps) || b in Quotes(qs) {
        var p;
        if b in Quotes(ps) { var i := QuoteOfPiece(ps, b); p := ps[i]; }
            else { var i := QuoteOfPiece(qs, b); p := qs[i]; }
        TokensCount(cl, ps, qs, p);
        QuoteCount(ps, p);
        QuoteCount(qs, p);
      }
    }
  }

  lemma LettersIfTokens(cl: Classes, ps: seq<Piece>, qs: seq<Piece>)
    requires Sane(cl) && AllOk(cl, ps) && AllOk(cl, qs) && multiset(Tokens(ps)) == multiset(Tokens(qs))
    ensures multiset(Letters(ps)) == multiset(Letters(qs))
  {
    forall c: char ensures multiset(Letters(ps))[c] == multiset(Letters(qs))[c] {
      if c in Letters(ps) || c in Letters(qs) {
        var p;
        if c in Letters(ps) { var i := LetterOfPiece(ps, c); p := ps[i]; }
            else { var i := LetterOfPiece(qs, c); p := qs[i]; }
        TokensCount(cl, ps, qs, p);
        LetterCount(ps, p);
        LetterCount(qs, p);
      }
    }
  }

  lemma LinksIfTokens(cl: Classes, ps: seq<Piece>, qs: seq<Piece>)
    requires Sane(cl) && AllOk(cl, ps) && AllOk(cl, qs) && multiset(Tokens(ps)) == multiset(Tokens(qs))
    ensures multiset(Links(ps)) == multiset(Links(qs))
  {
    forall l: (string, string) ensures multiset(Links(ps))[l] == multiset(Links(qs))[l] {
      if l in Links(ps) || l in Links(qs) {
        var p;
        if l in Links(ps) { var i := LinkOfPiece(ps, l); p := ps[i]; } else { var i := LinkOfPiece(qs, l); p := qs[i]; }
        TokensCount(cl, ps, qs, p);
        LinkCount(ps, p);
        LinkCount(qs, p);
      }
    }
  }

  /** Comparing tokens compares the contents of the pieces, kind by kind. */
  lemma TokensAgreeIff(cl: Classes, ps: seq<Piece>, qs: seq<Piece>)
    requires Sane(cl) && AllOk(cl, ps) && AllOk(cl, qs)
    ensures multiset(Tokens(ps)) == multiset(Tokens(qs)) <==> SameContents(ps, qs)
  {
    if multiset(Tokens(ps)) == multiset(Tokens(qs)) {
      NamesIfTokens(cl, ps, qs);
      QuotesIfTokens(cl, ps, qs);
      LettersIfTokens(cl, ps, qs);
      LinksIfTokens(cl, ps, qs);
    }
    if SameContents(ps, qs) { TokensIfContents(cl, ps, qs); }
  }

  // ----- Validation -----

  predicate Blank(cl: Classes, s: string) { All(cl.space, s) }

  function Pipes(s: string): nat { multiset(s)['|'] }

  /** The translation, if it may replace the source; `None` as input stands for no string. */
  function Validate(cl: Classes, src: string, out: Option<string>): Option<string> {
    if out.None? || Blank(cl, out.value) then None
    else
      var scanned := Parse(cl, out.value);
      if !scanned.1 then None
      else if StringOrder.Sorted(Tokens(Parse(cl, src).0)) != StringOrder.Sorted(Tokens(scanned.0)) then None
      else if Pipes(src) != Pipes(out.value) then None
      else out
  }

  /** The positions of the plural separators. */
  function BarsAt(s: string): set<int> {
    set i | 0 <= i < |s| && s[i] == '|'
  }

  lemma {:induction false} PipesAre(s: string)
    ensures Pipes(s) == |BarsAt(s)|
  {
    if s != [] {
      var n := |s| - 1;
      PipesAre(s[..n]);
      assert s == s[..n] + [s[n]];
      assert BarsAt(s) == BarsAt(s[..n]) + (if s[n] == '|' then {n} else {});
    }
  }

  lemma {:induction false} WellFormedOk(cl: Classes, ps: seq<Piece>)
    requires WellFormed(cl, ps)
    ensures AllOk(cl, ps)
  {
    if ps != [] {
      WellFormedOk(cl, ps[1..]);
      assert forall i :: 1 <= i < |ps| ==> ps[i] == ps[1..][i - 1];
    }
  }

  lemma PieceAtOk(cl: Classes, text: string, i: nat)
    requires i < |text| && PieceAt(cl, text, i).Some?
    ensures PieceOk(cl, PieceAt(cl, text, i).value)
  {
    PieceAtSound(cl, text, i);
  }

  lemma PieceAtText(cl: Classes, text: string, i: nat) returns (w: string)
    requires i < |text| && PieceAt(cl, text, i).Some?
    ensures w == Text(PieceAt(cl, text, i).value) && |w| == Size(PieceAt(cl, text, i).value)
    ensures i + |w| <= |text| && w == text[i..i + |w|]
  {
    PieceAtSound(cl, text, i);
    w := Text(PieceAt(cl, text, i).value);
    LaidFitsIff(text, i, PieceAt(cl, text, i).value);
  }

  lemma {:induction false} ParsedOk(cl: Classes, text: string, i: nat)
    requires i <= |text|
    ensures AllOk(cl, ParseFrom(cl, text, i).0)
    decreases |text| - i
  {
    if i < |text| && PieceAt(cl, text, i).Some? {
      var p := PieceAt(cl, text, i).value;
      PieceAtOk(cl, text, i);
      ParseStep(cl, text, i, p);
      ParsedOk(cl, text, i + Size(p));
      OkCons(cl, p, ParseFrom(cl, text, i + Size(p)).0);
    }
  }

  lemma OkCons(cl: Classes, p: Piece, ps: seq<Piece>)
    requires PieceOk(cl, p) && AllOk(cl, ps)
    ensures AllOk(cl, [p] + ps)
  {
  }

  /** No piece of the grammar occurs at the position. */
  ghost predicate NoPiece(cl: Classes, text: string, i: nat) {
    forall p :: !Occurs(cl, p, text, i)
  }

  lemma NoPieceAt(cl: Classes, text: string, i: nat)
    requires Sane(cl) && i < |text| && PieceAt(cl, text, i).None?
    ensures NoPiece(cl, text, i)
  {
    forall p ensures !Occurs(cl, p, text, i) {
      if Occurs(cl, p, text, i) { PieceAtComplete(cl, p, text, i); }
    }
  }

  /** From `i` on the text is the rendering of the pieces, and then comes something else. */
  predicate RendersTo(text: string, i: nat, ps: seq<Piece>, n: nat) {
    i <= n < |text| && Render(ps) == text[i..n]
  }

  lemma RendersCons(text: string, i: nat, p: Piece, w: string, ps: seq<Piece>, n: nat)
    requires w == Text(p) && i + |w| <= |text| && w == text[i..i + |w|] && RendersTo(text, i + |w|, ps, n)
    ensures RendersTo(text, i, [p] + ps, n)
  {
    RenderCons(p, ps);
    SlicesJoin(text, i, w, Render(ps));
  }

  lemma FaultHere(cl: Classes, text: string, i: nat)
    requires i <= |text| && ParseFrom(cl, text, i) == ([], false)
    ensures RendersTo(text, i, [], i) && PieceAt(cl, text, i).None?
  {
    assert text[i..i] == [];
  }

  lemma {:induction false} FaultFrom(cl: Classes, text: string, i: nat, ps: seq<Piece>) returns (n: nat)
    requires i <= |text| && ParseFrom(cl, text, i) == (ps, false)
    ensures RendersTo(text, i, ps, n) && PieceAt(cl, text, n).None?
    decreases |ps|
  {
    if ps == [] {
      n := i;
      FaultHere(cl, text, i);
    } else {
      var p, w, rest := ParseTail(cl, text, i, ps);
      n := FaultFrom(cl, text, i + |w|, rest);
      RendersCons(text, i, p, w, rest, n);
    }
  }

  /** What is read of a message that does not compile: its pieces up to the first place at which no
      piece of the grammar occurs. */
  lemma FaultyMessage(cl: Classes, text: string) returns (n: nat)
    requires Sane(cl) && !Parse(cl, text).1
    ensures n < |text| && Render(Parse(cl, text).0) == text[..n] && NoPiece(cl, text, n)
  {
    n := FaultFrom(cl, text, 0, Parse(cl, text).0);
    NoPieceAt(cl, text, n);
  }

  lemma ParseTail(cl: Classes, text: string, i: nat, ps: seq<Piece>) returns (p: Piece, w: string, rest: seq<Piece>)
    requires i <= |text| && ps != [] && ParseFrom(cl, text, i) == (ps, false)
    ensures w == Text(p) && i + |w| <= |text| && w == text[i..i + |w|]
    ensures ps == [p] + rest && |rest| < |ps| && ParseFrom(cl, text, i + |w|) == (rest, false)
  {
    p := PieceAt(cl, text, i).value;
    w := PieceAtText(cl, text, i);
    ParseStep(cl, text, i, p);
    rest := ParseFrom(cl, text, i + Size(p)).0;
  }

  lemma RenderCons(p: Piece, ps: seq<Piece>)
    ensures Render([p] + ps) == Text(p) + Render(ps)
  {
    assert ([p] + ps)[1..] == ps;
  }

  lemma SlicesJoin(text: string, i: nat, a: string, b: string)
    requires i + |a| + |b| <= |text| && a == text[i..i + |a|] && b == text[i + |a|..i + |a| + |b|]
    ensures a + b == text[i..i + |a| + |b|]
  {
  }

  /** The condition for acceptance, told by the contents of the two messages: the translation has a
      character that is no white space, is a message of the grammar, and has as many placeholders of
      each name, escapes of each body, printf tokens, links and plural separators as were read from
      the source. */
  lemma {:induction false} AcceptedIff(cl: Classes, src: string, out: string)
    requires Sane(cl)
    ensures Validate(cl, src, Some(out)) == Some(out)
       <==> && (exists i :: 0 <= i < |out| && !cl.space(out[i])) && |BarsAt(src)| == |BarsAt(out)|
            && exists ps :: WellFormed(cl, ps) && Render(ps) == out && SameContents(ps, Parse(cl, src).0)
    ensures Validate(cl, src, Some(out)) == Some(out) || Validate(cl, src, Some(out)) == None
  {
    ValidateIff(cl, src, out);
    PipesAre(src);
    PipesAre(out);
    ParsedOk(cl, src, 0);
    forall ps | WellFormed(cl, ps)
      ensures multiset(Tokens(ps)) == multiset(Tokens(Parse(cl, src).0)) <==> SameContents(ps, Parse(cl, src).0)
    {
      WellFormedOk(cl, ps);
      TokensAgreeIff(cl, ps, Parse(cl, src).0);
    }
  }

  /** A translation is accepted exactly when it is a non-blank message of the grammar with the
      multiset of tokens read from the source and its number of plural separators. A source that
      does not compile itself counts with the tokens read before its fault. */
  lemma {:induction false} ValidateIff(cl: Classes, src: string, out: string)
    requires Sane(cl)
    ensures Validate(cl, src, Some(out)) == Some(out)
       <==> && !Blank(cl, out) && Pipes(src) == Pipes(out)
            && exists ps :: WellFormed(cl, ps) && Render(ps) == out
                && multiset(Tokens(ps)) == multiset(Tokens(Parse(cl, src).0))
  {
    StringOrder.SortedEqualIff(Tokens(Parse(cl, src).0), Tokens(Parse(cl, out).0));
    if Parse(cl, out).1 { RenderOfParse(cl, out); }
    forall ps | WellFormed(cl, ps) && Render(ps) == out
      ensures Parse(cl, out) == (ps, true)
    {
      ParseOfRender(cl, ps);
    }
  }

  /** Between two messages of the grammar: accepted means same multiset of tokens and same number
      of separators, whatever the pieces' order, white space and literal text. */
  lemma {:induction false} ValidateMessages(cl: Classes, src: seq<Piece>, out: seq<Piece>)
    requires Sane(cl) && WellFormed(cl, src) && WellFormed(cl, out) && !Blank(cl, Render(out))
    ensures Validate(cl, Render(src), Some(Render(out))).Some?
       <==> multiset(Tokens(src)) == multiset(Tokens(out)) && Pipes(Render(src)) == Pipes(Render(out))
  {
    ParseOfRender(cl, src);
    ParseOfRender(cl, out);
    StringOrder.SortedEqualIff(Tokens(src), Tokens(out));
  }

  /** And told by contents. */
  lemma AcceptedMessages(cl: Classes, src: seq<Piece>, out: seq<Piece>)
    requires Sane(cl) && WellFormed(cl, src) && WellFormed(cl, out) && !Blank(cl, Render(out))
    ensures Validate(cl, Render(src), Some(Render(out))).Some?
       <==> SameContents(src, out) && |BarsAt(Render(src))| == |BarsAt(Render(out))|
  {
    ValidateMessages(cl, src, out);
    WellFormedOk(cl, src);
    WellFormedOk(cl, out);
    TokensAgreeIff(cl, src, out);
    PipesAre(Render(src));
    PipesAre(Render(out));
  }

  /** A renamed placeholder is never accepted, whatever else the two messages hold. */
  lemma RenamedPlaceholderIsRejected(cl: Classes, src: seq<Piece>, out: seq<Piece>, i: nat)
    requires Sane(cl) && WellFormed(cl, src) && WellFormed(cl, out) && !Blank(cl, Render(out))
    requires i < |src| && src[i].Placeholder?
    requires forall j :: 0 <= j < |out| && out[j].Placeholder? ==> out[j].body != src[i].body
    ensures Validate(cl, Render(src), Some(Render(out))).None?
  {
    AcceptedMessages(cl, src, out);
    var n := src[i].body;
    NameListed(src, i);
    assert multiset(Names(src))[n] > 0;
    if n in Names(out) { var j := NameOfPiece(out, n); }
  }

  lemma {:induction false} NameListed(ps: seq<Piece>, i: nat)
    requires i < |ps| && ps[i].Placeholder?
    ensures ps[i].body in Names(ps)
    decreases i
  {
    if i > 0 { NameListed(ps[1..], i - 1); }
  }
}
