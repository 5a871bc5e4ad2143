/** The ILIKE operator, and what a search for `%s%` finds. `fold` is the case folding of one character. */
module Like {
  import opened Wrappers
  import Text

  datatype Part = AnyText | AnyChar | Exactly(c: char)

  /** A pattern that ends in a lone backslash is an error in the database. */
  function Parse(pattern: string): Option<seq<Part>> {
    if pattern == [] then Some([])
    else if pattern[0] == '\\' then
      if |pattern| == 1 then None else Prepend(Exactly(pattern[1]), Parse(pattern[2..]))
    else
      Prepend(Plain(pattern[0]), Parse(pattern[1..]))
  }

  function Plain(c: char): Part {
    if c == '%' then AnyText else if c == '_' then AnyChar else Exactly(c)
  }

  function Prepend(p: Part, rest: Option<seq<Part>>): Option<seq<Part>> {
    if rest.None? then None else Some([p] + rest.value)
  }

  /** Does the whole text match? */
  predicate Matches(parts: seq<Part>, text: string, fold: char -> char)
    decreases |parts| + |text|
  {
    if parts == [] then text == []
    else match parts[0]
      case AnyText => Matches(parts[1..], text, fold) || (text != [] && Matches(parts, text[1..], fold))
      case AnyChar => text != [] && Matches(parts[1..], text[1..], fold)
      case Exactly(c) => text != [] && fold(c) == fold(text[0]) && Matches(parts[1..], text[1..], fold)
  }

  predicate ILike(text: string, pattern: string, fold: char -> char) {
    var parts := Parse(pattern);
    parts.Some? && Matches(parts.value, text, fold)
  }

  predicate SearchHits(search: string, text: string, fold: char -> char) {
    ILike(text, "%" + search + "%", fold)
  }

  /** `search` followed by a percent sign, parsed: the percent sign stands for any text, unless a lone
      backslash at the end of the search takes it for itself. */
  lemma {:induction false} ParseSearch(search: string)
    ensures Parse(search).Some? ==> Parse(search + "%") == Some(Parse(search).value + [AnyText])
    ensures Parse(search).None? ==>
              && |search| > 0 && Parse(search[..|search| - 1]).Some?
              && Parse(search + "%") == Some(Parse(search[..|search| - 1]).value + [Exactly('%')])
    decreases |search|
  {
    var s := search + "%";
    if search == [] {
      assert s[1..] == [];
      assert [] + [AnyText] == [AnyText] + [];
    } else if search[0] == '\\' && |search| == 1 {
      assert s[2..] == [] && search[..0] == [];
      assert [] + [Exactly('%')] == [Exactly('%')] + [];
    } else {
      var k := if search[0] == '\\' then 2 else 1;
      assert s[k..] == search[k..] + "%";
      ParseSearch(search[k..]);
      if Parse(search).None? {
        var front := search[..|search| - 1];
        assert front[k..] == search[k..][..|search[k..]| - 1];
        assert front[0] == search[0] && (k == 2 ==> front[1] == search[1]);
        PrependAppend(if k == 2 then Exactly(search[1]) else Plain(search[0]), Parse(front[k..]).value, Exactly('%'));
      } else {
        PrependAppend(if k == 2 then Exactly(search[1]) else Plain(search[0]), Parse(search[k..]).value, AnyText);
      }
    }
  }

  lemma PrependAppend(p: Part, rest: seq<Part>, last: Part)
    ensures Prepend(p, Some(rest + [last])) == Some(Prepend(p, Some(rest)).value + [last])
  {
    assert [p] + (rest + [last]) == [p] + rest + [last];
  }

  ghost predicate SplitAt(a: seq<Part>, b: seq<Part>, text: string, fold: char -> char, j: int) {
    0 <= j <= |text| && Matches(a, text[..j], fold) && Matches(b, text[j..], fold)
  }

  /** A match of two patterns in a row splits the text between them, */
  lemma {:induction false} SplitConcat(a: seq<Part>, b: seq<Part>, text: string, fold: char -> char) returns (j: nat)
    requires Matches(a + b, text, fold)
    ensures SplitAt(a, b, text, fold, j)
    decreases |a| + |text|
  {
    if a == [] {
      assert a + b == b && text[0..] == text;
      j := 0;
    } else {
      assert (a + b)[0] == a[0] && (a + b)[1..] == a[1..] + b;
      if a[0].AnyText? && Matches(a[1..] + b, text, fold) {
        j := SplitConcat(a[1..], b, text, fold);
      } else {
        var i := SplitConcat(if a[0].AnyText? then a else a[1..], b, text[1..], fold);
        j := i + 1;
        assert text[..j][1..] == text[1..][..i] && text[j..] == text[1..][i..];
      }
    }
  }

  /** and matches of the two halves make one of the whole. */
  lemma {:induction false} JoinConcat(a: seq<Part>, b: seq<Part>, text: string, fold: char -> char, j: nat)
    requires SplitAt(a, b, text, fold, j)
    ensures Matches(a + b, text, fold)
    decreases |a| + |text|
  {
    if a == [] {
      assert a + b == b && text[j..] == text;
    } else {
      assert (a + b)[0] == a[0] && (a + b)[1..] == a[1..] + b;
      if a[0].AnyText? && Matches(a[1..], text[..j], fold) {
        JoinConcat(a[1..], b, text, fold, j);
      } else {
        assert text[..j][1..] == text[1..][..j - 1] && text[j..] == text[1..][j - 1..];
        JoinConcat(if a[0].AnyText? then a else a[1..], b, text[1..], fold, j - 1);
      }
    }
  }

  lemma {:induction false} AnyTextMatches(text: string, fold: char -> char)
    ensures Matches([AnyText], text, fold)
  {
    if text != [] {
      AnyTextMatches(text[1..], fold);
    }
  }

  /** What a search means, for every search string: some stretch of the text matches the search itself as a
      pattern; if the search ends in a lone backslash, the text has to end in a match of the rest and a
      percent sign. */
  ghost predicate Meaning(search: string, text: string, fold: char -> char, i: int, j: int) {
    && 0 <= i <= j <= |text|
    && if Parse(search).Some? then Matches(Parse(search).value, text[i..j], fold)
       else j == |text| && |search| > 0 && Parse(search[..|search| - 1]).Some?
            && Matches(Parse(search[..|search| - 1]).value + [Exactly('%')], text[i..j], fold)
  }

  lemma SearchMeaning(search: string, text: string, fold: char -> char)
    ensures SearchHits(search, text, fold) <==> exists i, j :: Meaning(search, text, fold, i, j)
  {
    ParseSearch(search);
    assert ("%" + search + "%")[1..] == search + "%";
    var rest := Parse(search + "%").value;
    assert Parse("%" + search + "%") == Some([AnyText] + rest);
    if SearchHits(search, text, fold) {
      var i := SplitConcat([AnyText], rest, text, fold);
      if Parse(search).Some? {
        var k := SplitConcat(Parse(search).value, [AnyText], text[i..], fold);
        assert text[i..][..k] == text[i..i + k];
        assert Meaning(search, text, fold, i, i + k);
      } else {
        assert text[i..|text|] == text[i..];
        assert Meaning(search, text, fold, i, |text|);
      }
    }
    if i, j :| Meaning(search, text, fold, i, j) {
      AnyTextMatches(text[..i], fold);
      if Parse(search).Some? {
        AnyTextMatches(text[j..], fold);
        assert text[i..][..j - i] == text[i..j] && text[i..][j - i..] == text[j..];
        JoinConcat(Parse(search).value, [AnyText], text[i..], fold, j - i);
      } else {
        assert text[i..j] == text[i..];
      }
      JoinConcat([AnyText], rest, text, fold, i);
    }
  }

  predicate Folded(a: string, b: string, fold: char -> char) {
    |a| == |b| && forall k | 0 <= k < |a| :: fold(a[k]) == fold(b[k])
  }

  /** `text` contains `s`, up to case. */
  ghost predicate Contains(text: string, s: string, fold: char -> char) {
    exists i, j :: 0 <= i <= j <= |text| && Folded(s, text[i..j], fold)
  }

  /** Parts without a live wildcard, */
  predicate IsLiteral(parts: seq<Part>) {
    forall k | 0 <= k < |parts| :: parts[k].Exactly?
  }

  /** and the string they spell: the search with its escapes taken off. */
  function Literal(parts: seq<Part>): string
    requires IsLiteral(parts)
  {
    seq(|parts|, k requires 0 <= k < |parts| => parts[k].c)
  }

  lemma {:induction false} LiteralMatches(parts: seq<Part>, text: string, fold: char -> char)
    requires IsLiteral(parts)
    ensures Matches(parts, text, fold) <==> Folded(Literal(parts), text, fold)
  {
    if parts != [] && text != [] {
      LiteralMatches(parts[1..], text[1..], fold);
      assert Literal(parts)[0] == parts[0].c && Literal(parts)[1..] == Literal(parts[1..]);
      FoldedStep(Literal(parts), text, fold);
    }
  }

  lemma FoldedStep(a: string, b: string, fold: char -> char)
    requires a != [] && b != []
    ensures Folded(a, b, fold) <==> fold(a[0]) == fold(b[0]) && Folded(a[1..], b[1..], fold)
  {
    assert forall k | 0 < k < |a| :: a[k] == a[1..][k - 1];
    assert forall k | 0 < k < |b| :: b[k] == b[1..][k - 1];
  }

  /** A search whose wildcards are all escaped finds exactly the texts that contain what it spells, up to
      case. */
  lemma EscapedSearchIsContainment(search: string, text: string, fold: char -> char)
    requires Parse(search).Some? && IsLiteral(Parse(search).value)
    ensures SearchHits(search, text, fold) <==> Contains(text, Literal(Parse(search).value), fold)
  {
    var parts := Parse(search).value;
    SearchMeaning(search, text, fold);
    forall i, j | 0 <= i <= j <= |text|
      ensures Meaning(search, text, fold, i, j) <==> Folded(Literal(parts), text[i..j], fold)
    {
      LiteralMatches(parts, text[i..j], fold);
    }
  }

  lemma ContainsInLonger(s: string, before: string, text: string, after: string, fold: char -> char)
    requires Contains(text, s, fold)
    ensures Contains(before + text + after, s, fold)
  {
    var i, j :| 0 <= i <= j <= |text| && Folded(s, text[i..j], fold);
    assert (before + text + after)[|before| + i..|before| + j] == text[i..j];
  }

  /** Such a search finds every text that literally contains it exactly when it contains, up to case, what
      it spells. */
  lemma EscapedOccurrencesAreFoundIff(search: string, fold: char -> char)
    requires Parse(search).Some? && IsLiteral(Parse(search).value)
    ensures (forall before: string, after: string :: SearchHits(search, before + search + after, fold)) <==>
            Contains(search, Literal(Parse(search).value), fold)
  {
    var spelled := Literal(Parse(search).value);
    assert [] + search + [] == search;
    EscapedSearchIsContainment(search, [] + search + [], fold);
    if Contains(search, spelled, fold) {
      forall before: string, after: string ensures SearchHits(search, before + search + after, fold) {
        ContainsInLonger(spelled, before, search, after, fold);
        EscapedSearchIsContainment(search, before + search + after, fold);
      }
    } else {
      assert !SearchHits(search, [] + search + [], fold);
    }
  }

  predicate IsPlain(s: string) {
    forall k | 0 <= k < |s| :: s[k] != '%' && s[k] != '_' && s[k] != '\\'
  }

  lemma {:induction false} PlainSpellsItself(s: string)
    requires IsPlain(s)
    ensures Parse(s).Some? && IsLiteral(Parse(s).value) && Literal(Parse(s).value) == s
  {
    if s != [] {
      PlainSpellsItself(s[1..]);
      var rest := Parse(s[1..]).value;
      assert Parse(s).value == [Exactly(s[0])] + rest;
      assert Literal([Exactly(s[0])] + rest) == [s[0]] + Literal(rest);
    }
  }

  /** A search without percent signs, underscores and backslashes finds exactly the texts that contain it,
      up to case. */
  lemma PlainSearchIsContainment(search: string, text: string, fold: char -> char)
    requires IsPlain(search)
    ensures SearchHits(search, text, fold) <==> Contains(text, search, fold)
  {
    PlainSpellsItself(search);
    EscapedSearchIsContainment(search, text, fold);
  }

  predicate IsSpecial(c: char) {
    c == '%' || c == '_' || c == '\\'
  }

  /** `s` with a backslash before every wildcard and backslash, and before whatever else one likes. */
  function Escape(s: string, also: char -> bool): string {
    if s == "" then ""
    else (if IsSpecial(s[0]) || also(s[0]) then ['\\', s[0]] else [s[0]]) + Escape(s[1..], also)
  }

  lemma {:induction false} EscapedSpells(s: string, also: char -> bool)
    ensures var parts := Parse(Escape(s, also));
            parts.Some? && IsLiteral(parts.value) && Literal(parts.value) == s
  {
    if s != "" {
      EscapedSpells(s[1..], also);
      var e, rest := Escape(s, also), Escape(s[1..], also);
      if IsSpecial(s[0]) || also(s[0]) {
        assert e[0] == '\\' && e[1] == s[0] && e[2..] == rest;
      } else {
        assert e[0] == s[0] && e[1..] == rest;
      }
      assert Parse(e).value == [Exactly(s[0])] + Parse(rest).value;
      assert Literal([Exactly(s[0])] + Parse(rest).value) == [s[0]] + s[1..];
    }
  }

  /** A client that escapes finds, for every string, exactly the texts that contain it up to case. */
  lemma EscapingFindsTheString(s: string, text: string, fold: char -> char, also: char -> bool)
    ensures SearchHits(Escape(s, also), text, fold) <==> Contains(text, s, fold)
  {
    EscapedSpells(s, also);
    EscapedSearchIsContainment(Escape(s, also), text, fold);
  }

  lemma {:induction false} WildcardsMatchThemselves(s: string, fold: char -> char)
    requires '\\' !in s
    ensures Parse(s).Some? && Matches(Parse(s).value, s, fold)
  {
    if s != [] {
      WildcardsMatchThemselves(s[1..], fold);
      var parts := Parse(s).value;
      assert parts[1..] == Parse(s[1..]).value;
      if parts[0].AnyText? {
        assert Matches(parts, s[1..], fold);
      }
    }
  }

  /** A search without backslashes finds every text that literally contains it, wildcards or not. */
  lemma LiteralOccurrencesAreFound(search: string, before: string, after: string, fold: char -> char)
    requires '\\' !in search
    ensures SearchHits(search, before + search + after, fold)
  {
    var text := before + search + after;
    WildcardsMatchThemselves(search, fold);
    SearchMeaning(search, text, fold);
    assert text[|before|..|before| + |search|] == search;
    assert Meaning(search, text, fold, |before|, |before| + |search|);
  }

  lemma MeaningShifts(search: string, before: string, after: string, fold: char -> char, i: int, j: int)
    requires Parse(search).Some? && Meaning(search, search, fold, i, j)
    ensures Meaning(search, before + search + after, fold, |before| + i, |before| + j)
  {
    assert (before + search + after)[|before| + i..|before| + j] == search[i..j];
  }

  lemma OneCharacter(c: char, text: string, fold: char -> char)
    requires Matches([Exactly(c)], text, fold)
    ensures |text| == 1 && fold(text[0]) == fold(c)
  {
    assert [Exactly(c)][1..] == [];
  }

  lemma DanglingBackslashMisses(search: string, fold: char -> char, other: char)
    requires Parse(search).None? && fold(other) != fold('%')
    ensures !SearchHits(search, search + [other], fold)
  {
    var text := search + [other];
    SearchMeaning(search, text, fold);
    if i, j :| Meaning(search, text, fold, i, j) {
      var k := SplitConcat(Parse(search[..|search| - 1]).value, [Exactly('%')], text[i..j], fold);
      assert text[i..j] == text[i..];
      assert text[i..][k..] == text[i + k..];
      OneCharacter('%', text[i + k..], fold);
    }
  }

  /** In general, every text that literally contains a search is found exactly when the search has no lone
      backslash at its end and finds itself. */
  lemma LiteralOccurrencesAreFoundIff(search: string, fold: char -> char, other: char)
    requires fold(other) != fold('%')
    ensures (forall before: string, after: string :: SearchHits(search, before + search + after, fold)) <==>
            Parse(search).Some? && SearchHits(search, search, fold)
  {
    assert [] + search + [] == search && [] + search + [other] == search + [other];
    if Parse(search).None? {
      DanglingBackslashMisses(search, fold, other);
      assert !SearchHits(search, [] + search + [other], fold);
    } else if SearchHits(search, search, fold) {
      SearchMeaning(search, search, fold);
      var i, j :| Meaning(search, search, fold, i, j);
      forall before: string, after: string ensures SearchHits(search, before + search + after, fold) {
        MeaningShifts(search, before, after, fold, i, j);
        SearchMeaning(search, before + search + after, fold);
      }
    } else {
      assert !SearchHits(search, [] + search + [], fold);
    }
  }

  /** A piece of a search lies over the text at `p`: its underscores over any character, every other character
      over itself, up to case. */
  predicate LiesAt(piece: string, text: string, fold: char -> char, p: nat) {
    p + |piece| <= |text| && forall k | 0 <= k < |piece| :: piece[k] == '_' || fold(piece[k]) == fold(text[p + k])
  }

  /** All pieces lie over the text at the given positions, in order and without overlap. */
  ghost predicate Placed(pieces: seq<string>, text: string, fold: char -> char, at: seq<nat>) {
    && |at| == |pieces|
    && (forall k | 0 <= k < |at| :: LiesAt(pieces[k], text, fold, at[k]))
    && (forall k, l | 0 <= k < l < |at| :: at[k] + |pieces[k]| <= at[l])
  }

  function PieceParts(piece: string): seq<Part> {
    if piece == [] then [] else [Plain(piece[0])] + PieceParts(piece[1..])
  }

  /** Any text, the first piece, any text, the second piece, ..., any text. */
  function Floating(pieces: seq<string>): seq<Part> {
    if pieces == [] then [AnyText] else [AnyText] + (PieceParts(pieces[0]) + Floating(pieces[1..]))
  }

  lemma {:induction false} ParsePieces(search: string)
    requires '\\' !in search
    ensures var pieces := Text.Split(search, '%');
            Parse(search + "%") == Some(PieceParts(pieces[0]) + Floating(pieces[1..]))
  {
    var s, pieces := search + "%", Text.Split(search, '%');
    if search == [] {
      assert s[1..] == [] && pieces[1..] == [];
      assert [] + [AnyText] == [AnyText] + [];
    } else {
      ParsePieces(search[1..]);
      var rest := Text.Split(search[1..], '%');
      assert s[1..] == search[1..] + "%";
      if search[0] == '%' {
        assert pieces[1..] == rest;
        assert [] + Floating(rest) == [AnyText] + (PieceParts(rest[0]) + Floating(rest[1..]));
      } else {
        assert pieces[0] == [search[0]] + rest[0] && pieces[0][1..] == rest[0] && pieces[1..] == rest[1..];
        assert [Plain(search[0])] + PieceParts(rest[0]) + Floating(rest[1..]) ==
               [Plain(search[0])] + (PieceParts(rest[0]) + Floating(rest[1..]));
      }
    }
  }

  lemma {:induction false} PieceMatches(piece: string, text: string, fold: char -> char)
    requires '%' !in piece
    ensures Matches(PieceParts(piece), text, fold) <==> |text| == |piece| && LiesAt(piece, text, fold, 0)
  {
    if piece != [] {
      var parts := PieceParts(piece);
      assert parts[0] == Plain(piece[0]) && parts[1..] == PieceParts(piece[1..]);
      if text != [] {
        PieceMatches(piece[1..], text[1..], fold);
        assert forall k | 0 < k < |piece| :: piece[k] == piece[1..][k - 1];
        assert forall k | 0 < k < |text| :: text[k] == text[1..][k - 1];
      }
    }
  }

  lemma PieceMatchesAt(piece: string, text: string, fold: char -> char, p: nat, e: nat)
    requires '%' !in piece && p <= e <= |text|
    ensures Matches(PieceParts(piece), text[p..e], fold) <==> e == p + |piece| && LiesAt(piece, text, fold, p)
  {
    PieceMatches(piece, text[p..e], fold);
    assert forall k | 0 <= k < e - p :: text[p..e][k] == text[p + k];
  }

  lemma LiesInSuffix(piece: string, text: string, fold: char -> char, e: nat, p: nat)
    requires e <= |text|
    ensures LiesAt(piece, text[e..], fold, p) <==> LiesAt(piece, text, fold, e + p)
  {
    if e + p + |piece| <= |text| {
      var a, b := text[e..][p..p + |piece|], text[e + p..e + p + |piece|];
      assert a == b;
      assert forall k | 0 <= k < |piece| :: a[k] == text[e..][p + k] && b[k] == text[e + p + k];
    }
  }

  lemma PlacedAfter(pieces: seq<string>, text: string, fold: char -> char, i: nat, e: nat, rest: seq<nat>)
    returns (at: seq<nat>)
    requires pieces != [] && i + |pieces[0]| == e && LiesAt(pieces[0], text, fold, i)
    requires Placed(pieces[1..], text[e..], fold, rest)
    ensures Placed(pieces, text, fold, at)
  {
    at := [i] + seq(|rest|, k requires 0 <= k < |rest| => e + rest[k]);
    forall k | 0 < k < |at| ensures LiesAt(pieces[k], text, fold, at[k]) && at[k] == e + rest[k - 1] {
      assert pieces[1..][k - 1] == pieces[k];
      LiesInSuffix(pieces[k], text, fold, e, rest[k - 1]);
    }
    forall k, l | 0 <= k < l < |at| ensures at[k] + |pieces[k]| <= at[l] {
      assert k > 0 ==> pieces[1..][k - 1] == pieces[k] && rest[k - 1] + |pieces[k]| <= rest[l - 1];
    }
  }

  lemma PlacedTail(pieces: seq<string>, text: string, fold: char -> char, at: seq<nat>) returns (rest: seq<nat>)
    requires pieces != [] && Placed(pieces, text, fold, at)
    ensures var e := at[0] + |pieces[0]|; e <= |text| && Placed(pieces[1..], text[e..], fold, rest)
  {
    var e := at[0] + |pieces[0]|;
    assert LiesAt(pieces[0], text, fold, at[0]);
    rest := seq(|at| - 1, k requires 0 <= k < |at| - 1 => at[k + 1] - e);
    forall k | 0 <= k < |rest| ensures LiesAt(pieces[1..][k], text[e..], fold, rest[k]) {
      LiesInSuffix(pieces[k + 1], text, fold, e, rest[k]);
    }
  }

  lemma {:induction false} FloatingMatches(pieces: seq<string>, text: string, fold: char -> char)
    returns (at: seq<nat>)
    requires forall k | 0 <= k < |pieces| :: '%' !in pieces[k]
    requires Matches(Floating(pieces), text, fold)
    ensures Placed(pieces, text, fold, at)
    decreases |pieces|
  {
    at := [];
    if pieces != [] {
      var parts, others := PieceParts(pieces[0]), Floating(pieces[1..]);
      var i := SplitConcat([AnyText], parts + others, text, fold);
      var k := SplitConcat(parts, others, text[i..], fold);
      assert text[i..][..k] == text[i..i + k] && text[i..][k..] == text[i + k..];
      PieceMatchesAt(pieces[0], text, fold, i, i + k);
      var rest := FloatingMatches(pieces[1..], text[i + k..], fold);
      at := PlacedAfter(pieces, text, fold, i, i + k, rest);
    }
  }

  lemma {:induction false} PlacedMatches(pieces: seq<string>, text: string, fold: char -> char, at: seq<nat>)
    requires forall k | 0 <= k < |pieces| :: '%' !in pieces[k]
    requires Placed(pieces, text, fold, at)
    ensures Matches(Floating(pieces), text, fold)
    decreases |pieces|
  {
    if pieces == [] {
      AnyTextMatches(text, fold);
    } else {
      var rest := PlacedTail(pieces, text, fold, at);
      var i, e := at[0], at[0] + |pieces[0]|;
      PlacedMatches(pieces[1..], text[e..], fold, rest);
      PieceMatchesAt(pieces[0], text, fold, i, e);
      assert text[i..][..e - i] == text[i..e] && text[i..][e - i..] == text[e..];
      JoinConcat(PieceParts(pieces[0]), Floating(pieces[1..]), text[i..], fold, e - i);
      AnyTextMatches(text[..i], fold);
      JoinConcat([AnyText], PieceParts(pieces[0]) + Floating(pieces[1..]), text, fold, i);
    }
  }

  /** A search without backslashes finds exactly the texts over which its pieces between percent signs can be
      laid in order and without overlap, underscores over any character. */
  lemma WildcardSearchIsPlacement(search: string, text: string, fold: char -> char)
    requires '\\' !in search
    ensures SearchHits(search, text, fold) <==>
            exists at: seq<nat> :: Placed(Text.Split(search, '%'), text, fold, at)
  {
    var pieces := Text.Split(search, '%');
    Text.PiecesHaveNoSeparator(search, '%');
    ParsePieces(search);
    assert ("%" + search + "%")[1..] == search + "%";
    assert Parse("%" + search + "%") == Some(Floating(pieces));
    if SearchHits(search, text, fold) {
      var at := FloatingMatches(pieces, text, fold);
    }
    if at: seq<nat> :| Placed(pieces, text, fold, at) {
      PlacedMatches(pieces, text, fold, at);
    }
  }

  /** With a backslash that can fail: the search `\` does not find the text `\`. */
  lemma BackslashIsNotFound(fold: char -> char)
    requires fold('%') != fold('\\')
    ensures !SearchHits("\\", "\\", fold)
  {
    var text := "\\";
    SearchMeaning(text, text, fold);
    assert Parse(text).None?;
  }

  /** Leaving the filter out for an empty search changes nothing. */
  lemma EmptySearchFindsAll(text: string, fold: char -> char)
    ensures SearchHits("", text, fold)
  {
    SearchMeaning("", text, fold);
    assert text[0..0] == [];
    assert Meaning("", text, fold, 0, 0);
  }
}
