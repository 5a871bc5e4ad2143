/** The slug pattern shared by categories and products, read in one pass. */
module Slugs {
  import opened Text

  predicate IsWordChar(c: char) {
    'a' <= c <= 'z' || '0' <= c <= '9'
  }

  predicate AllWordChars(w: string) {
    forall k | 0 <= k < |w| :: IsWordChar(w[k])
  }

  predicate IsWord(w: string) {
    w != [] && AllWordChars(w)
  }

  datatype Position = WordStart | InWord | Dead

  function Advance(p: Position, c: char): Position {
    if p != Dead && IsWordChar(c) then InWord
    else if p == InWord && c == '-' then WordStart
    else Dead
  }

  function Scan(p: Position, s: string): Position
    decreases |s|
  {
    if s == [] then p else Scan(Advance(p, s[0]), s[1..])
  }

  predicate IsSlug(s: string, maxLength: nat) {
    |s| <= maxLength && Scan(WordStart, s) == InWord
  }

  ghost predicate AreWords(words: seq<string>) {
    forall i | 0 <= i < |words| :: IsWord(words[i])
  }

  lemma {:induction false} DeadStaysDead(s: string)
    ensures Scan(Dead, s) == Dead
  {
    if s != [] {
      DeadStaysDead(s[1..]);
    }
  }

  lemma {:induction false} ScanReadsPieces(s: string)
    ensures Scan(WordStart, s) == InWord <==> AreWords(Split(s, '-'))
    ensures Scan(InWord, s) == InWord <==> AllWordChars(Split(s, '-')[0]) && AreWords(Split(s, '-')[1..])
  {
    if s == [] {
      assert !IsWord(Split(s, '-')[0]);
    } else {
      ScanReadsPieces(s[1..]);
      var rest := Split(s[1..], '-');
      var pieces := Split(s, '-');
      if s[0] == '-' {
        assert pieces[0] == [] && pieces[1..] == rest;
        DeadStaysDead(s[1..]);
      } else {
        assert pieces[0] == [s[0]] + rest[0] && pieces[1..] == rest[1..];
        assert AllWordChars(pieces[0]) <==> IsWordChar(s[0]) && AllWordChars(rest[0]) by {
          assert pieces[0][0] == s[0] && pieces[0][1..] == rest[0];
          assert AllWordChars(pieces[0]) ==> AllWordChars(pieces[0][1..]);
        }
        assert AreWords(pieces) <==> IsWord(pieces[0]) && AreWords(pieces[1..]) by {
          assert forall k | 0 < k < |pieces| :: pieces[k] == pieces[1..][k - 1];
        }
        DeadStaysDead(s[1..]);
      }
    }
  }

  ghost predicate SpellsWords(words: seq<string>) {
    forall w | w in words :: w != [] && forall c | c in w :: 'a' <= c <= 'z' || '0' <= c <= '9'
  }

  lemma SpelledOut(words: seq<string>)
    ensures SpellsWords(words) <==> AreWords(words)
  {
    if SpellsWords(words) {
      forall i | 0 <= i < |words| ensures IsWord(words[i]) {
        assert words[i] in words;
        forall k | 0 <= k < |words[i]| ensures IsWordChar(words[i][k]) {
          assert words[i][k] in words[i];
        }
      }
    }
    if AreWords(words) {
      forall w | w in words ensures w != [] && forall c | c in w :: 'a' <= c <= 'z' || '0' <= c <= '9' {
        var i :| 0 <= i < |words| && words[i] == w;
        assert IsWord(words[i]);
      }
    }
  }

  /** The one pass accepts exactly the hyphen-joins of non-empty lists of words. */
  lemma SlugsAreJoinedWords(s: string, maxLength: nat)
    ensures IsSlug(s, maxLength) <==>
            |s| <= maxLength && exists words :: words != [] && SpellsWords(words) && Join(words, '-') == s
  {
    ScanReadsPieces(s);
    JoinOfSplit(s, '-');
    forall words ensures SpellsWords(words) <==> AreWords(words) {
      SpelledOut(words);
    }
    if words :| words != [] && AreWords(words) && Join(words, '-') == s {
      assert forall i | 0 <= i < |words| :: '-' !in words[i];
      SplitOfJoin(words, '-');
    }
  }

  /** The words of a slug are unique, and splitting finds them. */
  lemma WordsOfASlugAreUnique(s: string, words: seq<string>)
    requires words != [] && AreWords(words)
    ensures Join(words, '-') == s <==> Split(s, '-') == words
  {
    JoinOfSplit(s, '-');
    assert forall i | 0 <= i < |words| :: '-' !in words[i];
    SplitOfJoin(words, '-');
  }
}
