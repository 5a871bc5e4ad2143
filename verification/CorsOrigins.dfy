/** The comma-separated CORS setting. `space` says which characters `strip` removes. */
module CorsOrigins {
  import opened Text

  datatype Setting = OneString(text: string) | AList(origins: seq<string>)

  function StripLeft(s: string, space: char -> bool): string {
    if s != [] && space(s[0]) then StripLeft(s[1..], space) else s
  }

  function StripRight(s: string, space: char -> bool): string {
    if s != [] && space(s[|s| - 1]) then StripRight(s[..|s| - 1], space) else s
  }

  function Strip(s: string, space: char -> bool): string {
    StripRight(StripLeft(s, space), space)
  }

  function Clean(pieces: seq<string>, space: char -> bool): seq<string> {
    if pieces == [] then []
    else
      var origin := Strip(pieces[0], space);
      (if origin != "" then [origin] else []) + Clean(pieces[1..], space)
  }

  function Parse(value: Setting, space: char -> bool): seq<string> {
    match value
    case OneString(text) => Clean(Split(text, ','), space)
    case AList(origins) => origins
  }

  predicate IsTrimmed(s: string, space: char -> bool) {
    s != [] ==> !space(s[0]) && !space(s[|s| - 1])
  }

  /** Non-empty, trimmed and free of commas. */
  predicate IsOrigin(s: string, space: char -> bool) {
    s != "" && IsTrimmed(s, space) && ',' !in s
  }

  ghost predicate AreOrigins(origins: seq<string>, space: char -> bool) {
    forall i | 0 <= i < |origins| :: IsOrigin(origins[i], space)
  }

  lemma {:induction false} StripLeftKeeps(s: string, space: char -> bool)
    ensures var t := StripLeft(s, space); (t != [] ==> !space(t[0])) && (',' !in s ==> ',' !in t)
  {
    if s != [] && space(s[0]) {
      StripLeftKeeps(s[1..], space);
    }
  }

  lemma {:induction false} StripRightKeeps(s: string, space: char -> bool)
    requires s != [] ==> !space(s[0])
    ensures var t := StripRight(s, space); IsTrimmed(t, space) && (',' !in s ==> ',' !in t)
  {
    if s != [] && space(s[|s| - 1]) {
      StripRightKeeps(s[..|s| - 1], space);
    }
  }

  lemma {:induction false} CleanGivesOrigins(pieces: seq<string>, space: char -> bool)
    requires forall i | 0 <= i < |pieces| :: ',' !in pieces[i]
    ensures AreOrigins(Clean(pieces, space), space)
  {
    if pieces != [] {
      CleanGivesOrigins(pieces[1..], space);
      StripLeftKeeps(pieces[0], space);
      StripRightKeeps(StripLeft(pieces[0], space), space);
    }
  }

  lemma {:induction false} CleanKeepsOrigins(origins: seq<string>, space: char -> bool)
    requires AreOrigins(origins, space)
    ensures Clean(origins, space) == origins
  {
    if origins != [] {
      assert IsOrigin(origins[0], space);
      CleanKeepsOrigins(origins[1..], space);
    }
  }

  /** Parsing the comma-join of any list of origins gives the list back. */
  lemma ParseOfJoin(origins: seq<string>, space: char -> bool)
    requires AreOrigins(origins, space)
    ensures Parse(OneString(Join(origins, ',')), space) == origins
  {
    if origins == [] {
      assert Split("", ',') == [""];
    } else {
      assert forall i | 0 <= i < |origins| :: ',' !in origins[i] by {
        assert forall i | 0 <= i < |origins| :: IsOrigin(origins[i], space);
      }
      SplitOfJoin(origins, ',');
      CleanKeepsOrigins(origins, space);
    }
  }

  /** Whatever the string, the parser gives a list of origins, and writing that list back and parsing it
      again changes nothing. */
  lemma ParseIsIdempotent(text: string, space: char -> bool)
    ensures var origins := Parse(OneString(text), space);
            AreOrigins(origins, space) && Parse(OneString(Join(origins, ',')), space) == origins
  {
    PiecesHaveNoSeparator(text, ',');
    CleanGivesOrigins(Split(text, ','), space);
    ParseOfJoin(Parse(OneString(text), space), space);
  }

  /** `t` is `s` without its leading and trailing blanks: */
  ghost predicate IsTrimOf(s: string, t: string, space: char -> bool) {
    exists l, r :: TrimmedPart(s, t, space, l, r)
  }

  /** the part from `l` to `r`. */
  ghost predicate TrimmedPart(s: string, t: string, space: char -> bool, l: nat, r: nat) {
    && l <= r <= |s| && t == s[l..r] && IsTrimmed(t, space)
    && (forall k | 0 <= k < l || r <= k < |s| :: space(s[k]))
  }

  lemma {:induction false} StripLeftPart(s: string, space: char -> bool) returns (l: nat)
    ensures l <= |s| && StripLeft(s, space) == s[l..] && forall k | 0 <= k < l :: space(s[k])
  {
    l := 0;
    if s != [] && space(s[0]) {
      var m := StripLeftPart(s[1..], space);
      l := m + 1;
      forall k | 0 <= k < l ensures space(s[k]) {
        assert k > 0 ==> s[k] == s[1..][k - 1];
      }
    }
  }

  lemma {:induction false} StripRightPart(s: string, space: char -> bool) returns (r: nat)
    ensures r <= |s| && StripRight(s, space) == s[..r] && forall k | r <= k < |s| :: space(s[k])
  {
    r := |s|;
    if s != [] && space(s[|s| - 1]) {
      r := StripRightPart(s[..|s| - 1], space);
      assert forall k | r <= k < |s| - 1 :: s[k] == s[..|s| - 1][k];
    }
  }

  lemma StripTrims(s: string, space: char -> bool)
    ensures IsTrimOf(s, Strip(s, space), space)
  {
    var l := StripLeftPart(s, space);
    var m := StripRightPart(s[l..], space);
    StripLeftKeeps(s, space);
    StripRightKeeps(s[l..], space);
    assert s[l..][..m] == s[l..l + m];
    forall k | l + m <= k < |s| ensures space(s[k]) {
      assert s[k] == s[l..][k - l];
    }
    assert TrimmedPart(s, Strip(s, space), space, l, l + m);
  }

  /** Positions in increasing order, exactly those where `trimmed` is not empty. */
  ghost predicate NonEmptyAt(trimmed: seq<string>, at: seq<nat>) {
    && (forall k | 0 <= k < |at| :: at[k] < |trimmed|)
    && (forall k, l | 0 <= k < l < |at| :: at[k] < at[l])
    && (forall i: nat | i < |trimmed| :: i in at <==> trimmed[i] != "")
  }

  /** `chosen` are the non-empty ones of `trimmed`, in order. */
  ghost predicate Picks(chosen: seq<string>, trimmed: seq<string>, at: seq<nat>) {
    |chosen| == |at| && NonEmptyAt(trimmed, at) && forall k | 0 <= k < |at| :: chosen[k] == trimmed[at[k]]
  }

  function Stripped(pieces: seq<string>, space: char -> bool): seq<string> {
    if pieces == [] then [] else Stripped(pieces[..|pieces| - 1], space) + [Strip(pieces[|pieces| - 1], space)]
  }

  lemma {:induction false} StrippedPieces(pieces: seq<string>, space: char -> bool)
    ensures |Stripped(pieces, space)| == |pieces|
    ensures forall i | 0 <= i < |pieces| :: Stripped(pieces, space)[i] == Strip(pieces[i], space)
  {
    if pieces != [] {
      StrippedPieces(pieces[..|pieces| - 1], space);
    }
  }

  lemma {:induction false} CleanAppend(pieces: seq<string>, last: string, space: char -> bool)
    ensures Clean(pieces + [last], space) ==
            Clean(pieces, space) + if Strip(last, space) != "" then [Strip(last, space)] else []
  {
    if pieces == [] {
      assert ([] + [last])[1..] == [];
    } else {
      assert (pieces + [last])[1..] == pieces[1..] + [last];
      CleanAppend(pieces[1..], last, space);
    }
  }

  lemma SkipEmpty(chosen: seq<string>, trimmed: seq<string>, at: seq<nat>)
    requires Picks(chosen, trimmed, at)
    ensures Picks(chosen, trimmed + [""], at)
  {
    assert forall i: nat | i < |trimmed| :: (trimmed + [""])[i] == trimmed[i];
  }

  lemma PickLast(chosen: seq<string>, trimmed: seq<string>, at: seq<nat>, last: string)
    requires Picks(chosen, trimmed, at) && last != ""
    ensures Picks(chosen + [last], trimmed + [last], at + [|trimmed|])
  {
    var t, more := trimmed + [last], at + [|trimmed|];
    forall i: nat | i < |t| ensures i in more <==> t[i] != "" {
      assert i in more <==> i in at || i == |trimmed|;
    }
  }

  lemma {:induction false} CleanPicks(pieces: seq<string>, space: char -> bool) returns (at: seq<nat>)
    ensures Picks(Clean(pieces, space), Stripped(pieces, space), at)
  {
    at := [];
    if pieces != [] {
      var front, last := pieces[..|pieces| - 1], pieces[|pieces| - 1];
      var before := CleanPicks(front, space);
      assert pieces == front + [last];
      CleanAppend(front, last, space);
      if Strip(last, space) == "" {
        assert Clean(front, space) + [] == Clean(front, space);
        SkipEmpty(Clean(front, space), Stripped(front, space), before);
        at := before;
      } else {
        PickLast(Clean(front, space), Stripped(front, space), before, Strip(last, space));
        at := before + [|Stripped(front, space)|];
      }
    }
  }

  ghost predicate AllTrimmed(pieces: seq<string>, trimmed: seq<string>, space: char -> bool) {
    |trimmed| == |pieces| && forall i | 0 <= i < |pieces| :: IsTrimOf(pieces[i], trimmed[i], space)
  }

  lemma StrippedAreTrimmed(pieces: seq<string>, space: char -> bool)
    ensures AllTrimmed(pieces, Stripped(pieces, space), space)
  {
    StrippedPieces(pieces, space);
    forall i | 0 <= i < |pieces| ensures IsTrimOf(pieces[i], Stripped(pieces, space)[i], space) {
      StripTrims(pieces[i], space);
    }
  }

  /** For every text: with each of its comma-separated pieces trimmed, the parser gives exactly the non-empty
      ones, in their order. A list is taken as it is. */
  lemma ParseMeaning(text: string, list: seq<string>, space: char -> bool)
    returns (trimmed: seq<string>, at: seq<nat>)
    ensures AllTrimmed(Split(text, ','), trimmed, space)
    ensures Picks(Parse(OneString(text), space), trimmed, at)
    ensures Parse(AList(list), space) == list
  {
    trimmed := Stripped(Split(text, ','), space);
    StrippedAreTrimmed(Split(text, ','), space);
    at := CleanPicks(Split(text, ','), space);
  }
}
