// The regular expressions of grep.c: ^ . * $ and literal characters, matched
// against a text without NUL.
module GrepMatcher {

  datatype Item =
    | One(c: char)       // one character
    | Star(c: char)      // any number of them

  // A pattern without its ^. end: it ends with $.
  datatype Pattern = Pattern(items: seq<Item>, end: bool)

  function Then(item: Item, p: Pattern): Pattern { Pattern([item] + p.items, p.end) }

  function Parse(re: string): Pattern {
    if re == "" then Pattern([], false)
    else if |re| > 1 && re[1] == '*' then Then(Star(re[0]), Parse(re[2..]))
    else if re == "$" then Pattern([], true)
    else Then(One(re[0]), Parse(re[1..]))
  }

  predicate Accepts(c: char, x: char) { c == '.' || c == x }

  predicate Fits(item: Item, piece: string) {
    match item
    case One(c) => |piece| == 1 && Accepts(c, piece[0])
    case Star(c) => forall k | 0 <= k < |piece| :: Accepts(c, piece[k])
  }

  // One piece of text for each item.
  predicate Pieces(items: seq<Item>, pieces: seq<string>) {
    |pieces| == |items| && forall k | 0 <= k < |items| :: Fits(items[k], pieces[k])
  }

  function Join(pieces: seq<string>): string {
    if pieces == [] then "" else pieces[0] + Join(pieces[1..])
  }

  // What a pattern means: the text begins with pieces that fit its items, and
  // with $ there is nothing after them.
  ghost predicate Matches(p: Pattern, text: string) {
    exists pieces: seq<string> :: Pieces(p.items, pieces) && Covers(p, pieces, text)
  }

  ghost predicate Covers(p: Pattern, pieces: seq<string>, text: string) {
    if p.end then Join(pieces) == text else Join(pieces) <= text
  }

  // Somewhere in the text, or at its beginning for ^.
  ghost predicate Found(re: string, text: string) {
    if re != "" && re[0] == '^' then Matches(Parse(re[1..]), text)
    else exists k: nat :: k <= |text| && Matches(Parse(re), text[k..])
  }

  lemma MatchesEmpty(end: bool, text: string)
    ensures Matches(Pattern([], end), text) <==> !end || text == ""
  {
    var p := Pattern([], end);
    assert Pieces(p.items, []) && Join([]) == "";
    if !end || text == "" { assert Covers(p, [], text); }
    if Matches(p, text) {
      var pieces :| Pieces(p.items, pieces) && Covers(p, pieces, text);
      assert pieces == [];
    }
  }

  // The first item takes the first k characters.
  ghost predicate Takes(item: Item, p: Pattern, text: string, k: nat) {
    k <= |text| && Fits(item, text[..k]) && Matches(p, text[k..])
  }

  lemma MatchesThen(item: Item, p: Pattern, text: string)
    ensures Matches(Then(item, p), text) <==> exists k: nat :: Takes(item, p, text, k)
  {
    var q := Then(item, p);
    if Matches(q, text) {
      var pieces :| Pieces(q.items, pieces) && Covers(q, pieces, text);
      var k, rest := |pieces[0]|, pieces[1..];
      assert Join(pieces) == pieces[0] + Join(rest);
      assert text[..k] == pieces[0] by { assert (pieces[0] + Join(rest))[..k] == pieces[0]; }
      assert Pieces(p.items, rest) by {
        assert forall j | 0 <= j < |rest| :: rest[j] == pieces[j + 1] && p.items[j] == q.items[j + 1];
      }
      assert Covers(p, rest, text[k..]);
      assert Takes(item, p, text, k);
    }
    if k: nat :| Takes(item, p, text, k) {
      var rest :| Pieces(p.items, rest) && Covers(p, rest, text[k..]);
      var pieces := [text[..k]] + rest;
      assert pieces[1..] == rest && text == text[..k] + text[k..];
      assert Pieces(q.items, pieces) && Covers(q, pieces, text);
    }
  }

  lemma MatchesOne(c: char, p: Pattern, text: string)
    ensures Matches(Then(One(c), p), text) <==> text != "" && Accepts(c, text[0]) && Matches(p, text[1..])
  {
    MatchesThen(One(c), p, text);
    hide Matches;
    if text != "" && Accepts(c, text[0]) && Matches(p, text[1..]) {
      assert Takes(One(c), p, text, 1);
    }
  }

  // matchhere: the text begins with a match of re.
  method MatchHere(re: string, text: string) returns (yes: bool)
    ensures yes <==> Matches(Parse(re), text)
    decreases |re|, 0
  {
    hide Matches;
    MatchesEmpty(false, text);
    MatchesEmpty(true, text);
    if re == "" {
      return true;
    }
    if |re| > 1 && re[1] == '*' {
      yes := MatchStar(re[0], re[2..], text);
      return;
    }
    if re[0] == '$' && |re| == 1 {
      return text == "";
    }
    assert re != "$";
    MatchesOne(re[0], Parse(re[1..]), text);
    if text != "" && (re[0] == '.' || re[0] == text[0]) {
      yes := MatchHere(re[1..], text[1..]);
      return;
    }
    yes := false;
  }

  // matchstar: the text begins with a match of c*re.
  method MatchStar(c: char, re: string, text: string) returns (yes: bool)
    ensures yes <==> Matches(Then(Star(c), Parse(re)), text)
    decreases |re|, 1
  {
    hide Matches;
    MatchesThen(Star(c), Parse(re), text);
    var k := 0;
    while true
      invariant k <= |text| && forall j | 0 <= j < k :: Accepts(c, text[j])
      invariant forall j: nat | j < k :: !Takes(Star(c), Parse(re), text, j)
      decreases |text| - k
    {
      yes := MatchHere(re, text[k..]);
      if yes {
        assert Takes(Star(c), Parse(re), text, k);
        return;
      }
      if k == |text| || !(text[k] == c || c == '.') {
        break;
      }
      k := k + 1;
    }
    assert forall j: nat | k < j <= |text| :: text[..j][k] == text[k];
    yes := false;
  }

  // match: re matches somewhere in the text, the empty string at its end
  // included.
  method Match(re: string, text: string) returns (yes: bool)
    ensures yes <==> Found(re, text)
  {
    hide Matches;
    if re != "" && re[0] == '^' {
      yes := MatchHere(re[1..], text);
      return;
    }
    var k := 0;
    while true
      invariant k <= |text|
      invariant forall j: nat | j < k :: !Matches(Parse(re), text[j..])
      decreases |text| - k
    {
      yes := MatchHere(re, text[k..]);
      if yes || k == |text| {
        return;
      }
      k := k + 1;
    }
  }
}
