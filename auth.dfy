/** The bearer-token authorization gate (main.py:81-92).

    The header is checked in a fixed order: a missing or empty header gives
    401; a header that does not split on whitespace into exactly two parts,
    the first of them "bearer" in any letter case, gives 401; a token that is
    not a valid access token gives 403; only then is the token's rate limit
    checked, which may give 429.  The rate-limit state is touched only after
    the token has been found valid. */
module Auth {
  import opened Wrappers
  import opened RateLimit

  const MissingHeader: HttpError := HttpError(401, "Missing Authorization header")
  const BadFormat: HttpError := HttpError(401, "Invalid Authorization format. Use: Bearer <token>")
  const InvalidToken: HttpError := HttpError(403, "Invalid access token")

  /** The characters Python's `str.split()` without arguments splits on:
      the Unicode whitespace characters. */
  predicate IsSpace(c: char) {
    || '\t' <= c <= '\r'
    || '\U{1c}' <= c <= '\U{20}'
    || c == '\U{85}' || c == '\U{a0}' || c == '\U{1680}'
    || '\U{2000}' <= c <= '\U{200a}'
    || c == '\U{2028}' || c == '\U{2029}' || c == '\U{202f}' || c == '\U{205f}' || c == '\U{3000}'
  }

  predicate AllSpace(s: string) {
    forall i :: 0 <= i < |s| ==> IsSpace(s[i])
  }

  /** A word: a non-empty run of non-whitespace characters. */
  predicate IsWord(s: string) {
    s != [] && forall i :: 0 <= i < |s| ==> !IsSpace(s[i])
  }

  /** `s` without its leading whitespace. */
  function SkipSpaces(s: string): (r: string)
    ensures |r| <= |s|
    ensures r == [] || !IsSpace(r[0])
  {
    if s != [] && IsSpace(s[0]) then SkipSpaces(s[1..]) else s
  }

  /** The length of the word at the front of `s`. */
  function WordLength(s: string): (n: nat)
    ensures n <= |s|
    ensures forall i :: 0 <= i < n ==> !IsSpace(s[i])
    ensures n == |s| || IsSpace(s[n])
  {
    if s == [] || IsSpace(s[0]) then 0 else 1 + WordLength(s[1..])
  }

  /** Python's `str.split()` without arguments: the words of `s`, split on
      runs of whitespace, with no empty pieces at either end. */
  function Split(s: string): (parts: seq<string>)
    ensures forall i :: 0 <= i < |parts| ==> IsWord(parts[i])
    decreases |s|
  {
    var t := SkipSpaces(s);
    if t == [] then []
    else
      var n := WordLength(t);
      [t[..n]] + Split(t[n..])
  }

  lemma {:induction false} SkipSpacesAfterSpace(ws: string, s: string)
    requires AllSpace(ws)
    ensures SkipSpaces(ws + s) == SkipSpaces(s)
  {
    if ws != [] {
      assert (ws + s)[0] == ws[0];
      assert (ws + s)[1..] == ws[1..] + s;
      SkipSpacesAfterSpace(ws[1..], s);
    } else {
      assert ws + s == s;
    }
  }

  /** Leading whitespace does not change the parts. */
  lemma SplitAfterSpace(ws: string, s: string)
    requires AllSpace(ws)
    ensures Split(ws + s) == Split(s)
  {
    SkipSpacesAfterSpace(ws, s);
  }

  /** Whitespace alone splits into no parts. */
  lemma SplitAllSpace(ws: string)
    requires AllSpace(ws)
    ensures Split(ws) == []
  {
    SkipSpacesAfterSpace(ws, []);
    assert ws + [] == ws;
  }

  lemma {:induction false} WordLengthOfWord(w: string, rest: string)
    requires forall i :: 0 <= i < |w| ==> !IsSpace(w[i])
    requires rest == [] || IsSpace(rest[0])
    ensures WordLength(w + rest) == |w|
  {
    if w == [] {
      assert w + rest == rest;
    } else {
      assert (w + rest)[0] == w[0];
      assert (w + rest)[1..] == w[1..] + rest;
      WordLengthOfWord(w[1..], rest);
    }
  }

  /** A word ends at the next whitespace character, or at the end. */
  lemma SplitWord(w: string, rest: string)
    requires IsWord(w)
    requires rest == [] || IsSpace(rest[0])
    ensures Split(w + rest) == [w] + Split(rest)
  {
    assert SkipSpaces(w + rest) == w + rest by {
      assert (w + rest)[0] == w[0];
    }
    WordLengthOfWord(w, rest);
    assert (w + rest)[..|w|] == w;
    assert (w + rest)[|w|..] == rest;
  }

  /** Skipping whitespace drops a run of whitespace from the front. */
  lemma {:induction false} SkipSpacesDrops(s: string) returns (k: nat)
    ensures k <= |s| && AllSpace(s[..k]) && SkipSpaces(s) == s[k..]
  {
    if s != [] && IsSpace(s[0]) {
      var k' := SkipSpacesDrops(s[1..]);
      k := k' + 1;
      assert s[1..][k'..] == s[k..];
      assert forall i :: 0 < i < k ==> s[..k][i] == s[1..][..k'][i - 1];
    } else {
      k := 0;
    }
  }

  /** A string without parts is all whitespace. */
  lemma SplitEmptyIsSpace(s: string)
    requires Split(s) == []
    ensures AllSpace(s)
  {
    var k := SkipSpacesDrops(s);
    assert s == s[..k];
  }

  /** A string with parts is whitespace, its first part, and a remainder
      that starts with whitespace (or is empty) and holds the other parts. */
  lemma SplitFirst(s: string) returns (lead: string, rest: string)
    requires Split(s) != []
    ensures AllSpace(lead) && (rest == [] || IsSpace(rest[0]))
    ensures s == lead + Split(s)[0] + rest && Split(rest) == Split(s)[1..]
  {
    var k := SkipSpacesDrops(s);
    var t := s[k..];
    var n := WordLength(t);
    assert Split(s) == [t[..n]] + Split(t[n..]);
    lead, rest := s[..k], t[n..];
    assert s == s[..k] + (t[..n] + t[n..]);
  }

  /** A string that splits into one word is that word between two runs of
      whitespace. */
  lemma SplitOne(s: string) returns (lead: string, trail: string)
    requires |Split(s)| == 1
    ensures AllSpace(lead) && AllSpace(trail)
    ensures s == lead + Split(s)[0] + trail
  {
    lead, trail := SplitFirst(s);
    SplitEmptyIsSpace(trail);
  }

  /** A string that splits into two words is the first word between two runs
      of whitespace, the second one non-empty, then the second word and
      whitespace again. */
  lemma SplitTwo(s: string) returns (lead: string, gap: string, trail: string)
    requires |Split(s)| == 2
    ensures AllSpace(lead) && AllSpace(gap) && gap != [] && AllSpace(trail)
    ensures s == lead + Split(s)[0] + gap + Split(s)[1] + trail
  {
    var rest;
    lead, rest := SplitFirst(s);
    assert Split(rest) != [] by {
      assert |Split(rest)| == 1;
    }
    gap, trail := SplitOne(rest);
    assert s == lead + Split(s)[0] + (gap + Split(rest)[0] + trail);
  }

  /** `" ".join(words)`. */
  function JoinWords(words: seq<string>): string {
    if words == [] then ""
    else if |words| == 1 then words[0]
    else words[0] + " " + JoinWords(words[1..])
  }

  /** Splitting undoes joining with single spaces. */
  lemma {:induction false} SplitJoin(words: seq<string>)
    requires forall i :: 0 <= i < |words| ==> IsWord(words[i])
    ensures Split(JoinWords(words)) == words
  {
    if words == [] {
      SplitAllSpace("");
    } else if |words| == 1 {
      SplitWord(words[0], "");
      SplitAllSpace("");
      assert words[0] + "" == words[0];
    } else {
      var tail := JoinWords(words[1..]);
      assert JoinWords(words) == words[0] + (" " + tail);
      SplitWord(words[0], " " + tail);
      SplitAfterSpace(" ", tail);
      SplitJoin(words[1..]);
      assert [words[0]] + words[1..] == words;
    }
  }

  /** Python's `str.lower()` on the ASCII letters; every other character is
      kept. */
  function Lower(s: string): (r: string)
    ensures |r| == |s|
    ensures forall i :: 0 <= i < |s| ==> r[i] == (if 'A' <= s[i] <= 'Z' then s[i] - 'A' + 'a' else s[i])
  {
    seq(|s|, i requires 0 <= i < |s| => if 'A' <= s[i] <= 'Z' then s[i] - 'A' + 'a' else s[i])
  }

  /** The scheme test of the gate: a string lower-cases to "bearer" exactly
      when it is "bearer" with each letter in either case. */
  lemma LowerIsBearer(s: string)
    ensures Lower(s) == "bearer" <==>
              |s| == 6 && forall i :: 0 <= i < 6 ==> s[i] == "bearer"[i] || s[i] == "BEARER"[i]
  {
    if |s| == 6 && forall i :: 0 <= i < 6 ==> s[i] == "bearer"[i] || s[i] == "BEARER"[i] {
      assert forall i :: 0 <= i < 6 ==> Lower(s)[i] == "bearer"[i];
    }
  }

  /** The first two checks of the gate: the header must be present and
      non-empty, and must read `Bearer <token>` up to whitespace and the
      case of the scheme.  The result is the token. */
  function ParseBearer(authorization: Option<string>): (r: Result<string, HttpError>)
    ensures r.Failure? ==> r.error.status == 401
    ensures r.Failure? && r.error == MissingHeader <==> authorization == None || authorization == Some("")
    ensures r.Success? ==> IsWord(r.value)
  {
    if authorization == None || authorization.value == "" then Failure(MissingHeader)
    else
      var parts := Split(authorization.value);
      if |parts| != 2 || Lower(parts[0]) != "bearer" then Failure(BadFormat)
      else Success(parts[1])
  }

  /** A header made of a scheme that lower-cases to "bearer" and a token,
      separated by whitespace and possibly surrounded by whitespace, yields
      that token. */
  lemma BearerRoundTrip(lead: string, scheme: string, gap: string, token: string, trail: string)
    requires AllSpace(lead) && AllSpace(trail) && AllSpace(gap) && gap != []
    requires IsWord(scheme) && IsWord(token)
    requires Lower(scheme) == "bearer"
    ensures ParseBearer(Some(lead + scheme + gap + token + trail)) == Success(token)
  {
    var h := lead + scheme + gap + token + trail;
    assert h == lead + (scheme + (gap + (token + trail)));
    SplitAfterSpace(lead, scheme + (gap + (token + trail)));
    SplitWord(scheme, gap + (token + trail));
    SplitAfterSpace(gap, token + trail);
    SplitWord(token, trail);
    SplitAllSpace(trail);
    assert Split(h) == [scheme, token];
    assert h != "";
  }

  /** Conversely, every header the parser accepts is a scheme that
      lower-cases to "bearer" and the token, separated by whitespace and
      possibly surrounded by whitespace. */
  lemma BearerShape(header: string, token: string) returns (lead: string, scheme: string, gap: string, trail: string)
    requires ParseBearer(Some(header)) == Success(token)
    ensures AllSpace(lead) && AllSpace(trail) && AllSpace(gap) && gap != []
    ensures IsWord(scheme) && IsWord(token) && Lower(scheme) == "bearer"
    ensures header == lead + scheme + gap + token + trail
  {
    scheme := Split(header)[0];
    lead, gap, trail := SplitTwo(header);
  }

  /** A header whose scheme is anything but "bearer" (in any case) is
      refused as malformed before the token is looked at. */
  lemma WrongSchemeRejected(scheme: string, token: string)
    requires IsWord(scheme) && IsWord(token)
    requires Lower(scheme) != "bearer"
    ensures ParseBearer(Some(scheme + " " + token)) == Failure(BadFormat)
  {
    SplitJoin([scheme, token]);
    assert JoinWords([scheme, token]) == scheme + " " + token by {
      assert JoinWords([scheme, token][1..]) == token;
    }
  }

  /** The result of the whole gate and the limiter state it leaves behind. */
  datatype GateResult = GateResult(result: Result<string, HttpError>, hits: map<string, seq<real>>)

  /** The gate on the limiter state `hits` at time `now`. */
  function Gate(validTokens: set<string>, hits: map<string, seq<real>>,
                authorization: Option<string>, now: real): (g: GateResult)
    // the checks that fail with 401 or 403 leave the limiter state untouched
    ensures g.result.Failure? && g.result.error.status != 429 ==> g.hits == hits
    // on success the token is valid and came from the header
    ensures g.result.Success? ==> g.result.value in validTokens && ParseBearer(authorization) == g.result
  {
    match ParseBearer(authorization)
    case Failure(e) => GateResult(Failure(e), hits)
    case Success(token) =>
      if token !in validTokens then GateResult(Failure(InvalidToken), hits)
      else
        var v := Admit(if token in hits then hits[token] else [], now);
        GateResult(if v.admitted then Success(token) else Failure(RateLimited), hits[token := v.stored])
  }

  /** The checks run in order: a malformed header is refused with 401 whatever
      the token and the limiter state; a well-formed header with an unknown
      token is refused with 403 whatever the limiter state. */
  lemma GateOrder(validTokens: set<string>, hits: map<string, seq<real>>,
                  authorization: Option<string>, now: real)
    ensures ParseBearer(authorization).Failure? ==>
              Gate(validTokens, hits, authorization, now).result == ParseBearer(authorization)
    ensures ParseBearer(authorization).Success? && ParseBearer(authorization).value !in validTokens ==>
              Gate(validTokens, hits, authorization, now) == GateResult(Failure(InvalidToken), hits)
  {
  }

  /** A request that passes the token check is admitted exactly when fewer
      than MaxHits of the token's hits are still in the window; it then
      records exactly one hit for that token, a 429 stores the pruned list,
      and no other token's entry changes. */
  lemma GateRecordsOneHit(validTokens: set<string>, hits: map<string, seq<real>>,
                          authorization: Option<string>, now: real, token: string)
    requires forall t :: t in hits ==> |hits[t]| <= MaxHits
    requires ParseBearer(authorization) == Success(token) && token in validTokens
    ensures var g := Gate(validTokens, hits, authorization, now);
            && g.hits.Keys == hits.Keys + {token}
            && (forall t :: t in hits && t != token ==> g.hits[t] == hits[t])
            && (g.result.Success? <==> |Pruned(if token in hits then hits[token] else [], now)| < MaxHits)
            && (g.result.Success? ==> g.hits[token] == Pruned(if token in hits then hits[token] else [], now) + [now])
            && (g.result.Failure? ==> g.result.error == RateLimited
                                      && g.hits[token] == Pruned(if token in hits then hits[token] else [], now))
            && |g.hits[token]| <= MaxHits
  {
    var old_ := if token in hits then hits[token] else [];
    var v := Admit(old_, now);
    if v.admitted {
      assert v.stored == v.stored[..|v.stored| - 1] + [now];
    }
  }

  /** `_authorize`: runs the gate on the limiter and returns the token. */
  method Authorize(validTokens: set<string>, limiter: RateLimiter,
                   authorization: Option<string>, now: real)
    returns (r: Result<string, HttpError>)
    requires limiter.Valid()
    modifies limiter
    ensures limiter.Valid()
    ensures r == Gate(validTokens, old(limiter.hits), authorization, now).result
    ensures limiter.hits == Gate(validTokens, old(limiter.hits), authorization, now).hits
  {
    r := ParseBearer(authorization);
    if r.Failure? {
      return;
    }
    var token := r.value;
    if token !in validTokens {
      return Failure(InvalidToken);
    }
    var limited := limiter.Check(token, now);
    if limited.Fail? {
      r := Failure(limited.error);
    }
  }
}
