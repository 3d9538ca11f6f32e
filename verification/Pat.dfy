/** Personal access tokens: GeneratePAT and ParsePAT. Strings are ASCII, so that a
    character is a byte. */
module Pat {
  import opened Common
  import opened Strings
  import opened BaseCodes

  const LITERAL := "rl_pat_"
  const PREFIX_SIZE := 8

  function Lower(s: string): string {
    if s == "" then "" else [if 'A' <= s[0] <= 'Z' then s[0] - 'A' + 'a' else s[0]] + Lower(s[1..])
  }

  function Upper(s: string): string {
    if s == "" then "" else [if 'a' <= s[0] <= 'z' then s[0] - 'a' + 'A' else s[0]] + Upper(s[1..])
  }

  datatype Token = Token(full: string, prefix: string, secret: string)

  // GeneratePAT from its random bytes; the hash of the secret is left to the caller.
  function GeneratePAT(prefixRaw: seq<Byte>, secretRaw: seq<Byte>): Result<Token, string>
    requires |prefixRaw| == 5 && |secretRaw| == 32
  {
    var prefix := Lower(Encode32(prefixRaw));
    if |prefix| != PREFIX_SIZE then Err("unexpected generated prefix size")
    else
      var secret := Encode64(secretRaw);
      Ok(Token(LITERAL + prefix + "_" + secret, prefix, secret))
  }

  // The position of the first underscore, or the length.
  function Underscore(s: string): (i: nat)
    ensures i <= |s|
  {
    if s == "" || s[0] == '_' then 0 else 1 + Underscore(s[1..])
  }

  // strings.SplitN(s, "_", n)
  function SplitN(s: string, n: nat): seq<string>
    requires n > 0
  {
    var i := Underscore(s);
    if n == 1 || i == |s| then [s] else [s[..i]] + SplitN(s[i + 1..], n - 1)
  }

  // ParsePAT's checks of the parts.
  function ParseParts(prefix: string, secret: string): Result<(string, string), string> {
    if |prefix| != PREFIX_SIZE then Err("invalid token prefix length")
    else
      UpperLength(prefix);
      if Decode32(Upper(prefix)).None? then Err("invalid token prefix encoding")
      else if Decode64(secret).None? then Err("invalid token secret encoding")
      else if |secret| < 32 then Err("invalid token secret size")
      else Ok((prefix, secret))
  }

  function ParsePAT(token: string): Result<(string, string), string> {
    var value := TrimSpace(token);
    if !(LITERAL <= value) then Err("invalid token prefix")
    else
      var parts := SplitN(value, 4);
      if |parts| != 4 then Err("invalid token format")
      else
        ParseParts(TrimSpace(parts[2]), TrimSpace(parts[3]))
  }

  // ---- Characters and splitting ---------------------------------------------------------

  lemma {:induction false} UpperLength(s: string)
    ensures |Upper(s)| == |s|
  {
    if s != "" {
      UpperLength(s[1..]);
    }
  }

  lemma UpperLowerOf(c: char)
    requires Value32(c).Some?
    ensures Upper(Lower([c])) == [c] && |Lower([c])| == 1
    ensures 'a' <= Lower([c])[0] <= 'z' || '2' <= Lower([c])[0] <= '7'
  {
    assert [c][1..] == "";
    assert Lower([c])[1..] == "";
  }

  predicate InAlphabet(s: string) {
    forall i :: 0 <= i < |s| ==> Value32(s[i]).Some?
  }

  predicate LowerAlphabet(s: string) {
    forall i :: 0 <= i < |s| ==> 'a' <= s[i] <= 'z' || '2' <= s[i] <= '7'
  }

  lemma {:induction false} LowerThen(c: char, s: string)
    ensures Lower([c] + s) == Lower([c]) + Lower(s)
    ensures Upper([c] + s) == Upper([c]) + Upper(s)
  {
    assert ([c] + s)[1..] == s && [c][1..] == "";
  }

  lemma {:induction false} UpperLower(s: string)
    requires InAlphabet(s)
    ensures Upper(Lower(s)) == s && |Lower(s)| == |s| && LowerAlphabet(Lower(s))
  {
    if s != "" {
      var c, rest := s[0], s[1..];
      assert s == [c] + rest;
      assert InAlphabet(rest);
      UpperLower(rest);
      UpperLowerOf(c);
      LowerThen(c, rest);
      assert Lower([c]) == [Lower([c])[0]];
      LowerThen(Lower([c])[0], Lower(rest));
    }
  }

  lemma {:induction false} UnderscoreAfter(word: string, rest: string)
    requires '_' !in word
    ensures Underscore(word + "_" + rest) == |word|
  {
    var s := word + "_" + rest;
    if word != "" {
      assert s[1..] == word[1..] + "_" + rest;
      UnderscoreAfter(word[1..], rest);
    }
  }

  lemma {:induction false} SplitWord(word: string, rest: string, n: nat)
    requires '_' !in word && n > 1
    ensures SplitN(word + "_" + rest, n) == [word] + SplitN(rest, n - 1)
  {
    UnderscoreAfter(word, rest);
    var s := word + "_" + rest;
    assert s[..|word|] == word && s[|word| + 1..] == rest;
  }

  lemma {:induction false} SplitTwoWords(a: string, b: string, rest: string, n: nat)
    requires '_' !in a && '_' !in b && n > 2
    ensures SplitN(a + "_" + (b + "_" + rest), n) == [a, b] + SplitN(rest, n - 2)
  {
    SplitWord(a, b + "_" + rest, n);
    SplitWord(b, rest, n - 1);
    assert [a] + ([b] + SplitN(rest, n - 2)) == [a, b] + SplitN(rest, n - 2);
  }

  lemma {:induction false} UnderscoreIs(s: string)
    ensures '_' !in s[..Underscore(s)]
    ensures Underscore(s) < |s| ==> s == s[..Underscore(s)] + "_" + s[Underscore(s) + 1..]
  {
    if s != "" && s[0] != '_' {
      var i := Underscore(s[1..]);
      UnderscoreIs(s[1..]);
      assert s[..i + 1] == [s[0]] + s[1..][..i];
      assert i + 1 < |s| ==> s[1..][i + 1..] == s[i + 2..];
    }
  }

  lemma SplitRest(rest: string, n: nat)
    requires n > 1
    ensures SplitN(rest, n) ==
            if Underscore(rest) < |rest| then [rest[..Underscore(rest)]] + SplitN(rest[Underscore(rest) + 1..], n - 1)
            else [rest]
  {
  }

  // A value of two words and a rest splits into four exactly if another underscore
  // follows; underscores after that one stay in the last part.
  lemma {:induction false} SplitInFour(value: string, a: string, b: string, rest: string)
    requires value == a + "_" + (b + "_" + rest) && '_' !in a && '_' !in b
    ensures var i := Underscore(rest);
            SplitN(value, 4) ==
            if i < |rest| then [a, b] + [rest[..i], rest[i + 1..]] else [a, b] + [rest]
  {
    SplitTwoWords(a, b, rest, 4);
    SplitRest(rest, 2);
  }

  // ---- What is accepted ------------------------------------------------------------------

  // The text after the literal is a prefix up to the first underscore and a secret after
  // it, each of which may be padded with spaces.
  predicate Shape(value: string, prefix: string, secret: string) {
    && LITERAL <= value
    && var rest := value[|LITERAL|..];
       Underscore(rest) < |rest| && PartsAt(rest, prefix, secret)
  }

  predicate PartsAt(rest: string, prefix: string, secret: string)
    requires Underscore(rest) < |rest|
  {
    prefix == TrimSpace(rest[..Underscore(rest)]) && secret == TrimSpace(rest[Underscore(rest) + 1..])
  }

  // Eight characters of the base 32 alphabet in either case, line breaks apart; at least
  // 32 characters whose base 64 part does not leave one character over.
  predicate Valid(prefix: string, secret: string) {
    && |prefix| == PREFIX_SIZE && |secret| >= 32
    && (forall c :: c in StripNewlines(Upper(prefix)) ==> Value32(c).Some?)
    && (forall c :: c in StripNewlines(secret) ==> Value64(c).Some?)
    && |StripNewlines(secret)| % 4 != 1
  }

  lemma PartsAccepted(prefix: string, secret: string)
    ensures ParseParts(prefix, secret).Ok? <==> Valid(prefix, secret)
    ensures ParseParts(prefix, secret).Ok? ==> ParseParts(prefix, secret).value == (prefix, secret)
  {
    UpperLength(prefix);
    if |prefix| == PREFIX_SIZE {
      DecodersAccept(Upper(prefix));
    }
    DecodersAccept(secret);
  }

  lemma SplitLiteral(rest: string, value: string) returns (words: seq<string>)
    requires After(rest, value)
    ensures |words| == 2
    ensures var i := Underscore(rest);
            SplitN(value, 4) == words + if i < |rest| then [rest[..i], rest[i + 1..]] else [rest]
  {
    words := ["rl", "pat"];
    Joined(rest, value);
    SplitInFour(value, "rl", "pat", rest);
  }

  lemma Joined(rest: string, value: string)
    requires After(rest, value)
    ensures value == "rl" + "_" + ("pat" + "_" + rest)
  {
    assert value == LITERAL + rest;
    assert LITERAL == "rl" + "_" + "pat" + "_";
  }

  // ParsePAT of a value whose split is known.
  lemma {:induction false} ParseSplit(rest: string, value: string, words: seq<string>)
    requires LITERAL <= value && TrimSpace(value) == value && |words| == 2
    requires var i := Underscore(rest);
             SplitN(value, 4) == words + if i < |rest| then [rest[..i], rest[i + 1..]] else [rest]
    ensures var i := Underscore(rest);
            ParsePAT(value) ==
            if i < |rest| then ParseParts(TrimSpace(rest[..i]), TrimSpace(rest[i + 1..]))
            else Err("invalid token format")
  {
  }

  predicate After(rest: string, value: string) {
    LITERAL <= value && rest == value[|LITERAL|..]
  }

  lemma {:induction false} ParseMeans(rest: string, value: string)
    requires After(rest, value) && TrimSpace(value) == value
    ensures var i := Underscore(rest);
            ParsePAT(value) ==
            if i < |rest| then ParseParts(TrimSpace(rest[..i]), TrimSpace(rest[i + 1..]))
            else Err("invalid token format")
  {
    var words := SplitLiteral(rest, value);
    ParseSplit(rest, value, words);
  }

  lemma PartsAre(p: string, s: string, prefix: string, secret: string)
    ensures ParseParts(p, s) == Ok((prefix, secret)) <==> p == prefix && s == secret && Valid(prefix, secret)
  {
    PartsAccepted(p, s);
  }

  // The answer r for a value, in terms of its shape.
  lemma AnswerMeans(r: Result<(string, string), string>, value: string, prefix: string, secret: string)
    requires LITERAL <= value
    requires var rest := value[|LITERAL|..];
             var i := Underscore(rest);
             r == if i < |rest| then ParseParts(TrimSpace(rest[..i]), TrimSpace(rest[i + 1..]))
                  else Err("invalid token format")
    ensures r == Ok((prefix, secret)) <==> Shape(value, prefix, secret) && Valid(prefix, secret)
  {
    var rest := value[|LITERAL|..];
    if Underscore(rest) < |rest| {
      PartsAre(TrimSpace(rest[..Underscore(rest)]), TrimSpace(rest[Underscore(rest) + 1..]), prefix, secret);
    }
  }

  lemma ValueAccepts(value: string, prefix: string, secret: string)
    requires LITERAL <= value && TrimSpace(value) == value
    ensures ParsePAT(value) == Ok((prefix, secret)) <==> Shape(value, prefix, secret) && Valid(prefix, secret)
  {
    ParseMeans(value[|LITERAL|..], value);
    AnswerMeans(ParsePAT(value), value, prefix, secret);
  }

  lemma TrimTwice(token: string)
    ensures TrimSpace(TrimSpace(token)) == TrimSpace(token)
    ensures ParsePAT(token) == ParsePAT(TrimSpace(token))
  {
    TrimSpaceTrims(token);
    TrimSpaceTrims(TrimSpace(token));
  }

  // ParsePAT accepts exactly the tokens of this shape with valid parts, and returns the
  // parts.
  lemma ParseAccepts(token: string, prefix: string, secret: string)
    ensures ParsePAT(token) == Ok((prefix, secret)) <==>
            Shape(TrimSpace(token), prefix, secret) && Valid(prefix, secret)
  {
    var value := TrimSpace(token);
    TrimTwice(token);
    if LITERAL <= value {
      ValueAccepts(value, prefix, secret);
    }
  }

  // ---- The round trip ------------------------------------------------------------------------

  lemma GeneratedParts(prefixRaw: seq<Byte>, secretRaw: seq<Byte>)
    requires |prefixRaw| == 5 && |secretRaw| == 32
    ensures var g := GeneratePAT(prefixRaw, secretRaw);
            && g.Ok? && |g.value.prefix| == 8 && |g.value.secret| == 43
            && g.value.full == LITERAL + g.value.prefix + "_" + g.value.secret
            && Upper(g.value.prefix) == Encode32(prefixRaw) && g.value.secret == Encode64(secretRaw)
            && LowerAlphabet(g.value.prefix)
            && (forall i :: 0 <= i < 43 ==> Value64(g.value.secret[i]).Some?)
  {
    RoundTrip32(prefixRaw);
    UpperLower(Encode32(prefixRaw));
    RoundTrip64(secretRaw);
  }

  lemma TrimNothing(s: string)
    requires forall i :: 0 <= i < |s| ==> !IsSpace(s[i])
    ensures TrimSpace(s) == s
  {
    TrimSpaceTrims(s);
  }

  // For all seeds the generated token parses to its prefix and secret, and these decode to
  // the seeds.
  lemma RoundTrip(prefixRaw: seq<Byte>, secretRaw: seq<Byte>)
    requires |prefixRaw| == 5 && |secretRaw| == 32
    ensures var g := GeneratePAT(prefixRaw, secretRaw);
            && g.Ok? && |g.value.prefix| == 8 && |g.value.secret| == 43
            && |Upper(g.value.prefix)| == 8
            && ParsePAT(g.value.full) == Ok((g.value.prefix, g.value.secret))
            && Decode32(Upper(g.value.prefix)) == Some(prefixRaw)
            && Decode64(g.value.secret) == Some(secretRaw)
  {
    GeneratedParts(prefixRaw, secretRaw);
    var g := GeneratePAT(prefixRaw, secretRaw).value;
    RoundTrip32(prefixRaw);
    RoundTrip64(secretRaw);
    GeneratedParses(g);
  }

  lemma NoSpaces(prefix: string, secret: string)
    requires LowerAlphabet(prefix) && forall i :: 0 <= i < |secret| ==> Value64(secret[i]).Some?
    ensures TrimSpace(prefix) == prefix && TrimSpace(secret) == secret
    ensures TrimSpace(LITERAL + prefix + "_" + secret) == LITERAL + prefix + "_" + secret
  {
    TrimNothing(prefix);
    TrimNothing(secret);
    TrimNothing(LITERAL + prefix + "_" + secret);
  }

  lemma PartsOf(prefix: string, secret: string)
    requires LowerAlphabet(prefix)
    ensures var rest := prefix + "_" + secret;
            && Underscore(rest) == |prefix| && rest[..|prefix|] == prefix && rest[|prefix| + 1..] == secret
  {
    UnderscoreAfter(prefix, secret);
  }

  lemma GeneratedParses(g: Token)
    requires g.full == LITERAL + g.prefix + "_" + g.secret && |g.prefix| == 8 && |g.secret| == 43
    requires |Upper(g.prefix)| == 8 && Decode32(Upper(g.prefix)).Some? && Decode64(g.secret).Some?
    requires LowerAlphabet(g.prefix)
    requires forall i :: 0 <= i < 43 ==> Value64(g.secret[i]).Some?
    ensures ParsePAT(g.full) == Ok((g.prefix, g.secret))
  {
    var rest := g.prefix + "_" + g.secret;
    assert g.full == LITERAL + rest;
    assert After(rest, g.full);
    PartsOf(g.prefix, g.secret);
    NoSpaces(g.prefix, g.secret);
    ParseMeans(rest, g.full);
  }

  // Different seeds give different tokens.
  lemma TokensAreDistinct(p: seq<Byte>, s: seq<Byte>, q: seq<Byte>, t: seq<Byte>)
    requires |p| == |q| == 5 && |s| == |t| == 32
    ensures GeneratePAT(p, s).Ok? && GeneratePAT(q, t).Ok?
    ensures GeneratePAT(p, s).value.full == GeneratePAT(q, t).value.full ==> p == q && s == t
  {
    RoundTrip(p, s);
    RoundTrip(q, t);
  }
}
