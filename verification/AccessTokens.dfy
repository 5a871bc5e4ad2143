/** Access tokens: a payload with truncated times, a symbolic signature, and the user id printed as a UUID.
    Times are in microseconds. */
module AccessTokens {
  import opened Wrappers

  const SECOND := 1_000_000
  const ID_DIGITS := 32

  /** Times are after the epoch, so that truncation and flooring agree. */
  function WholeSeconds(t: nat): nat {
    t / SECOND
  }

  datatype Payload = Payload(sub: string, kind: string, iat: nat, exp: nat)

  /** A token carries the key it was signed with; only that key verifies it. */
  datatype Token = Signed(key: string, payload: Payload)

  datatype Error = InvalidToken | MalformedId

  function Digit(d: nat): char
    requires d < 16
  {
    "0123456789abcdef"[d]
  }

  function DigitValue(c: char): Option<nat> {
    if '0' <= c <= '9' then Some((c - '0') as nat)
    else if 'a' <= c <= 'f' then Some((c - 'a') as nat + 10)
    else if 'A' <= c <= 'F' then Some((c - 'A') as nat + 10)
    else None
  }

  /** The last `width` hexadecimal digits of `n`. */
  function Hex(n: nat, width: nat): string {
    if width == 0 then "" else Hex(n / 16, width - 1) + [Digit(n % 16)]
  }

  function Unhex(s: string): Option<nat> {
    if s == "" then Some(0)
    else
      var front, last := Unhex(s[..|s| - 1]), DigitValue(s[|s| - 1]);
      if front.None? || last.None? then None else Some(front.value * 16 + last.value)
  }

  function Power16(k: nat): nat {
    if k == 0 then 1 else 16 * Power16(k - 1)
  }

  /** The five groups of a UUID. */
  function Groups(h: string): string
    requires |h| == ID_DIGITS
  {
    h[..8] + (['-'] + (h[8..12] + (['-'] + (h[12..16] + (['-'] + (h[16..20] + (['-'] + h[20..])))))))
  }

  function PrintId(id: nat): string {
    HexLength(id, ID_DIGITS);
    Groups(Hex(id, ID_DIGITS))
  }

  function WithoutHyphens(s: string): string {
    if s == "" then "" else (if s[0] == '-' then "" else [s[0]]) + WithoutHyphens(s[1..])
  }

  function ParseId(s: string): Result<nat, Error> {
    var h := WithoutHyphens(s);
    if |h| != ID_DIGITS then Failure(MalformedId)
    else if Unhex(h).None? then Failure(MalformedId)
    else Success(Unhex(h).value)
  }

  function CreateAccessToken(user: nat, now: nat, minutes: nat, key: string): Token {
    Signed(key, Payload(PrintId(user), "access", WholeSeconds(now), WholeSeconds(now + minutes * 60 * SECOND)))
  }

  function DecodeAccessToken(token: Token, now: nat, key: string): Result<nat, Error> {
    if token.key != key then Failure(InvalidToken)
    else if now < token.payload.iat * SECOND then Failure(InvalidToken)
    else if token.payload.exp * SECOND <= now then Failure(InvalidToken)
    else if token.payload.kind != "access" || token.payload.sub == "" then Failure(InvalidToken)
    else ParseId(token.payload.sub)
  }

  lemma {:induction false} HexLength(n: nat, width: nat)
    ensures |Hex(n, width)| == width
  {
    if width > 0 {
      HexLength(n / 16, width - 1);
    }
  }

  lemma LastHexDigit(n: nat, bound: nat)
    requires n < 16 * bound
    ensures n / 16 < bound && n / 16 * 16 + n % 16 == n
  {
  }

  lemma UnhexDigit(front: string, d: nat)
    requires d < 16 && Unhex(front).Some?
    ensures Unhex(front + [Digit(d)]) == Some(Unhex(front).value * 16 + d)
  {
    var s := front + [Digit(d)];
    assert s[..|s| - 1] == front && s[|s| - 1] == Digit(d);
    assert DigitValue(Digit(d)) == Some(d);
  }

  lemma {:induction false} UnhexOfHex(n: nat, width: nat)
    requires n < Power16(width)
    ensures Unhex(Hex(n, width)) == Some(n)
  {
    if width > 0 {
      LastHexDigit(n, Power16(width - 1));
      UnhexOfHex(n / 16, width - 1);
      UnhexDigit(Hex(n / 16, width - 1), n % 16);
    }
  }

  lemma {:induction false} HexHasNoHyphens(n: nat, width: nat)
    ensures '-' !in Hex(n, width)
  {
    if width > 0 {
      HexHasNoHyphens(n / 16, width - 1);
    }
  }

  lemma {:induction false} WithoutHyphensAppend(a: string, b: string)
    ensures WithoutHyphens(a + b) == WithoutHyphens(a) + WithoutHyphens(b)
  {
    if a == "" {
      assert a + b == b;
    } else {
      assert (a + b)[1..] == a[1..] + b;
      WithoutHyphensAppend(a[1..], b);
    }
  }

  lemma {:induction false} NoHyphensToDrop(a: string)
    requires '-' !in a
    ensures WithoutHyphens(a) == a
  {
    if a != "" {
      NoHyphensToDrop(a[1..]);
    }
  }

  lemma DropHyphen(rest: string)
    ensures WithoutHyphens(['-'] + rest) == WithoutHyphens(rest)
  {
    var s := ['-'] + rest;
    assert s[0] == '-' && s[1..] == rest;
    assert [] + WithoutHyphens(rest) == WithoutHyphens(rest);
  }

  lemma DropOneHyphen(a: string, rest: string)
    requires '-' !in a
    ensures WithoutHyphens(a + (['-'] + rest)) == a + WithoutHyphens(rest)
  {
    WithoutHyphensAppend(a, ['-'] + rest);
    NoHyphensToDrop(a);
    DropHyphen(rest);
  }

  lemma GroupsOnlyAddHyphens(h: string)
    requires |h| == ID_DIGITS && '-' !in h
    ensures WithoutHyphens(Groups(h)) == h
  {
    var e := h[20..];
    var r4 := h[16..20] + (['-'] + e);
    var r3 := h[12..16] + (['-'] + r4);
    var r2 := h[8..12] + (['-'] + r3);
    NoHyphensToDrop(e);
    DropOneHyphen(h[16..20], e);
    assert WithoutHyphens(r4) == h[16..];
    DropOneHyphen(h[12..16], r4);
    assert WithoutHyphens(r3) == h[12..];
    DropOneHyphen(h[8..12], r3);
    assert WithoutHyphens(r2) == h[8..];
    DropOneHyphen(h[..8], r2);
  }

  /** Every 128-bit id survives printing and parsing. */
  lemma ParseOfPrint(id: nat)
    requires id < Power16(ID_DIGITS)
    ensures ParseId(PrintId(id)) == Success(id)
  {
    HexLength(id, ID_DIGITS);
    HexHasNoHyphens(id, ID_DIGITS);
    GroupsOnlyAddHyphens(Hex(id, ID_DIGITS));
    UnhexOfHex(id, ID_DIGITS);
  }

  function Lower(s: string): (r: string)
    ensures |r| == |s|
  {
    seq(|s|, k requires 0 <= k < |s| => if 'A' <= s[k] <= 'F' then s[k] - 'A' + 'a' else s[k])
  }

  lemma DigitIff(c: char, d: nat)
    ensures DigitValue(c) == Some(d) <==> d < 16 && Lower([c])[0] == Digit(d)
  {
  }

  lemma LowerAppend(front: string, last: char)
    ensures Lower(front + [last]) == Lower(front) + [Lower([last])[0]]
  {
  }

  lemma SameLast(a: string, c: char, b: string, d: char)
    requires |a| == |b|
    ensures a + [c] == b + [d] <==> a == b && c == d
  {
    if a + [c] == b + [d] {
      assert (a + [c])[..|a|] == a && (b + [d])[..|b|] == b;
      assert (a + [c])[|a|] == (b + [d])[|b|];
    }
  }

  lemma UnhexStep(front: string, last: char, x: nat)
    ensures Unhex(front + [last]) == Some(x) <==> Unhex(front) == Some(x / 16) && DigitValue(last) == Some(x % 16)
  {
    assert (front + [last])[..|front|] == front;
  }

  /** Hexadecimal digits in either case, most significant first. */
  lemma {:induction false} UnhexIff(s: string, x: nat)
    ensures Unhex(s) == Some(x) <==> x < Power16(|s|) && Lower(s) == Hex(x, |s|)
    decreases |s|
  {
    if s != "" {
      var front, last := s[..|s| - 1], s[|s| - 1];
      assert s == front + [last];
      UnhexStep(front, last, x);
      UnhexIff(front, x / 16);
      DigitIff(last, x % 16);
      LowerAppend(front, last);
      HexLength(x / 16, |front|);
      SameLast(Lower(front), Lower([last])[0], Hex(x / 16, |front|), Digit(x % 16));
      BoundOfQuotient(x, Power16(|front|));
    }
  }

  lemma BoundOfQuotient(x: nat, bound: nat)
    ensures x < 16 * bound <==> x / 16 < bound
  {
  }

  /** A string is read as the id `x` exactly when what is left of it without hyphens is the 32 digits of `x`, in
      either case. */
  lemma ParseIdIff(s: string, x: nat)
    ensures ParseId(s) == Success(x) <==>
            x < Power16(32) && Lower(WithoutHyphens(s)) == Hex(x, 32)
  {
    HexLength(x, 32);
    if |WithoutHyphens(s)| == 32 {
      UnhexIff(WithoutHyphens(s), x);
    }
  }

  lemma HyphenAfter(group: string, rest: string, k: nat)
    requires '-' !in group && k < |group| + 1 + |rest|
    ensures (group + (['-'] + rest))[k] == '-' <==> k == |group| || (k > |group| && rest[k - |group| - 1] == '-')
  {
    if k < |group| {
      assert (group + (['-'] + rest))[k] == group[k];
    }
  }

  lemma GroupsHyphens(h: string, k: nat)
    requires |h| == ID_DIGITS && '-' !in h && k < 36
    ensures |Groups(h)| == 36
    ensures Groups(h)[k] == '-' <==> k in {8, 13, 18, 23}
  {
    var e := h[20..];
    var r4 := h[16..20] + (['-'] + e);
    var r3 := h[12..16] + (['-'] + r4);
    var r2 := h[8..12] + (['-'] + r3);
    HyphenAfter(h[..8], r2, k);
    if k > 8 {
      HyphenAfter(h[8..12], r3, k - 9);
    }
    if k > 13 {
      HyphenAfter(h[12..16], r4, k - 14);
    }
    if k > 18 {
      HyphenAfter(h[16..20], e, k - 19);
    }
  }

  /** The printed form: 36 characters, with hyphens at four places and the 32 digits at the others. */
  lemma PrintedId(id: nat)
    ensures |PrintId(id)| == 36
    ensures forall k | 0 <= k < 36 :: PrintId(id)[k] == '-' <==> k in {8, 13, 18, 23}
    ensures WithoutHyphens(PrintId(id)) == Hex(id, 32)
  {
    HexLength(id, ID_DIGITS);
    HexHasNoHyphens(id, ID_DIGITS);
    GroupsOnlyAddHyphens(Hex(id, ID_DIGITS));
    GroupsHyphens(Hex(id, ID_DIGITS), 0);
    forall k: nat | k < 36 ensures PrintId(id)[k] == '-' <==> k in {8, 13, 18, 23} {
      GroupsHyphens(Hex(id, ID_DIGITS), k);
    }
  }

  /** For every token, key and time: the user `x` comes out exactly of a token that is signed with this key, has
      been issued, has not expired, has the type `access` and a subject that spells `x`. A subject that spells no
      id is an error of its own, and everything else an invalid token. */
  lemma DecodeIff(token: Token, now: nat, key: string, x: nat)
    ensures var p := token.payload;
      var valid := token.key == key && p.iat * SECOND <= now < p.exp * SECOND && p.kind == "access" && p.sub != "";
      && (DecodeAccessToken(token, now, key) == Success(x) <==>
            valid && x < Power16(32) && Lower(WithoutHyphens(p.sub)) == Hex(x, 32))
      && (DecodeAccessToken(token, now, key) == Failure(InvalidToken) <==> !valid)
  {
    ParseIdIff(token.payload.sub, x);
  }

  /** A token minted at `t` gives the same user from then on until `minutes` after the whole second of `t`,
      and is refused before that second and after; truncation loses less than a second. */
  lemma TokenLifetime(user: nat, t: nat, minutes: nat, key: string, later: nat)
    requires user < Power16(ID_DIGITS)
    ensures var end := (WholeSeconds(t) + 60 * minutes) * SECOND;
            && DecodeAccessToken(CreateAccessToken(user, t, minutes, key), later, key) ==
                 (if WholeSeconds(t) * SECOND <= later < end then Success(user) else Failure(InvalidToken))
            && t + minutes * 60 * SECOND - SECOND < end <= t + minutes * 60 * SECOND
  {
    ParseOfPrint(user);
    assert PrintId(user) != "";
    assert WholeSeconds(t + minutes * 60 * SECOND) == WholeSeconds(t) + 60 * minutes;
  }
}
