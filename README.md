# WriteFlow AI gate and prompt composer, in Dafny

WriteFlow AI is a small HTTP service that forwards writing requests
(generate, rewrite, translate) to a language-model provider. Before any
request reaches the provider it passes an authorization gate:

- the `Authorization` header must read `Bearer <token>`;
- the token must belong to the set of valid access tokens;
- the token must be under its rate limit.

The rate limit allows 20 admitted requests per token in any sliding window
of 60 seconds. After the gate, each operation builds a system instruction
and a user message from fixed texts and the request's fields.

This project models that core of `main.py`:

- `wrappers.dfy`: `Option`, `Result`, `Outcome`, and `HttpError` (a status
  code with a detail message: the service's `HTTPException`).
- `rate_limit.dfy` (module `RateLimit`): the limiter.
  - `Pruned` is the window filter and `Prune` the loop that computes it.
  - `Admit` is the decision of one check.
  - The class `RateLimiter` holds the map from token to timestamps. Its
    `Check` updates one entry in place and keeps the invariant that no list
    is longer than 20.
  - `Run` replays a series of checks, for the burst properties.
- `auth.dfy` (module `Auth`): the gate.
  - `Split` is Python's whitespace `str.split()`; `Lower` is `str.lower()`.
  - `ParseBearer` does the header checks.
  - `Gate` is the whole gate as a function of the limiter state.
  - `Authorize` is the method that runs the gate on the limiter object.
- `prompts.dfy` (module `Prompts`): composition of the system and user
  messages for the three operations.
- `handlers.dfy` (module `Handlers`): the three endpoints. Each runs the
  gate and, only when it passes, yields the message pair it would send to
  the provider.

The clock is an explicit parameter `now: real`. The valid tokens are a
parameter `validTokens: set<string>`.

Behaviour the model keeps from the code:

- A stored timestamp `t` survives a check at `now` only when
  `now - t < 60`. A timestamp exactly 60 seconds old is dropped. A
  timestamp later than `now` (a clock that went back) is kept.
- The first check of a token creates its entry (`setdefault`). A refused
  check still stores the pruned list.
- A header that is absent or empty gives 401 "Missing Authorization
  header".
- A header of whitespace only is present but splits into no parts. It gives
  the other 401, "Invalid Authorization format".
- The scheme is compared after lower-casing, so `BEARER`, `bearer` and
  `Bearer` all pass.
- An optional request field sent as `null` is kept as `None`. Tone and
  language then add no clause. Style falls back to "improved". A `null`
  source language is not "auto", so the translate message reads
  `Translate from None to …`; a `null` target language shows as `None` too.

## Model

| member | source | states |
|---|---|---|
| RateLimit.Pruned | main.py:69 | the kept timestamps are exactly the stored ones with `now - t < 60`; none is outside the window; the list never grows |
| RateLimit.PrunedAppend | main.py:69 | pruning is an order-preserving filter: it distributes over concatenation |
| RateLimit.PrunedAllInWindow | main.py:69 | a list already inside the window is kept unchanged |
| RateLimit.PrunedLater | main.py:66-69 | pruning lazily at a later check gives the same list as pruning once at that later time |
| RateLimit.PrunedIdempotent | main.py:69 | pruning twice at the same time changes nothing more |
| RateLimit.Prune | main.py:69 | the comprehension's loop computes exactly the window filter |
| RateLimit.Admit | main.py:67-75 | admitted iff fewer than 20 pruned entries remain; if admitted, `now` is appended after the pruned list; if refused, the pruned list is stored and holds at least 20; every stored entry is inside the window; the 20-entry bound is preserved |
| RateLimit.QuotaRestoredAfterWindow | main.py:61-75 | 60 seconds after the last recorded hit the list is empty, and the next request is admitted with only `now` stored |
| RateLimit.RunWithinOneWindow | main.py:61-75 | for requests within one window, the k-th request is admitted iff fewer than 20 hits precede it |
| RateLimit.BurstAdmitsExactlyMaxHits | main.py:61-75 | a burst from a fresh token inside one window: the first 20 are admitted, every later one gets 429 |
| RateLimit.RateLimiter.constructor | main.py:60 | the limiter starts with no entries |
| RateLimit.RateLimiter.Check | main.py:65-75 | 429 exactly when the pruned list holds 20 or more; only the given token's entry is created or replaced, with the pruned list plus `now` on success; all its entries are inside the window; no list exceeds 20 |
| Auth.Split | main.py:85 | whitespace splitting yields only non-empty pieces without whitespace |
| Auth.SplitJoin | main.py:85 | splitting undoes joining words with single spaces |
| Auth.SplitTwo | main.py:85-86 | a string with exactly two parts is whitespace, the first part, non-empty whitespace, the second part, whitespace |
| Auth.LowerIsBearer | main.py:86 | the scheme lower-cases to "bearer" iff it has six characters, each the letter of "bearer" in either case |
| Auth.ParseBearer | main.py:83-88 | every refusal is 401; "missing header" iff the header is absent or empty; an accepted token is a non-empty word without whitespace |
| Auth.BearerRoundTrip | main.py:83-88 | a header made of whitespace, a scheme that lower-cases to "bearer", whitespace and a token yields that token |
| Auth.BearerShape | main.py:85-88 | conversely, every accepted header has exactly that shape |
| Auth.WrongSchemeRejected | main.py:86-87 | any other scheme gives 401 "Invalid Authorization format", whatever the token |
| Auth.Gate | main.py:81-92 | the 401 and 403 refusals leave the limiter state untouched; on success the token came from the header and is a valid token |
| Auth.GateOrder | main.py:83-91 | a malformed header gives its 401 whatever the token set and limiter state; an unknown token gives 403 whatever the limiter state |
| Auth.GateRecordsOneHit | main.py:88-92 | once the token is valid, it is admitted iff fewer than 20 of its hits are still in the window; only its entry changes; on success exactly `now` is appended to its pruned list; the only refusal left is 429, which stores the pruned list; the 20-entry bound holds |
| Auth.Authorize | main.py:81-92 | returns the gate's result and leaves the limiter in the gate's state, keeping the 20-entry invariant |
| Prompts.WithClauses | main.py:198-201 | the base prompt first; the tone clause right after it iff the tone is set, non-empty and not "professional"; the language clause at the end iff the language is set, non-empty and not "en"; nothing else |
| Prompts.GenerateSystem | main.py:197-201 | the system prompt starts with the base prompt of the requested content type |
| Prompts.WithClausesDefaults | main.py:198-201 | a default, empty or absent tone and language add nothing |
| Prompts.WithClausesDistinguishesTone | main.py:198-199 | two different overriding tones give different prompts |
| Prompts.WithClausesDistinguishesLanguage | main.py:200-201 | two different overriding languages give different prompts |
| Prompts.StyleInstruction | main.py:214-221 | a known style selects its own instruction; the "improved" instruction is chosen iff the style is absent, empty, unknown or "improved" |
| Prompts.RewriteSystem | main.py:223-228 | the editor prompt is the fixed opening text, the selected instruction, a space and the fixed closing text, and nothing else |
| Prompts.RewriteSystemSameInstruction | main.py:221-228 | two rewrite prompts are equal iff their styles select the same instruction |
| Prompts.RewriteUser | main.py:230 | the user message is the fixed request line followed by the text, which can be read back |
| Prompts.TranslateUser | main.py:251-253 | the raw text is sent iff the source language is "auto"; otherwise the message is exactly the "Translate from X to Y" heading followed by the text; the text always ends the message |
| Handlers.GenerateContent | main.py:189-203 | a gate refusal is returned unchanged and nothing is composed; otherwise the composed system prompt with the prompt as user message; the limiter ends in the gate's state |
| Handlers.RewriteContent | main.py:206-230 | as above, with the rewrite system prompt and user message |
| Handlers.TranslateContent | main.py:233-255 | as above, with the translator prompt and the translate user message |

## Left out

- The call to the language-model provider (`_call_openai`, main.py:157-183)
  is not modelled. It is a foreign network call, and its error
  classification depends on client-library exception types. A handler's
  result is the message pair it would send.
- The web framework is not modelled: app setup, CORS, routing, static
  files, `serve_index`, `health` and the server runner. They are I/O
  plumbing.
- Request validation by the request models (main.py:98-119) is not
  modelled. The content type is a datatype with its four allowed values,
  and the length bounds on the text fields are not checked. The lookup of
  the base prompt therefore cannot fail.
- Configuration loading (main.py:21-37) is not modelled. The valid tokens
  are a parameter.
- Concurrency between request handlers that share the limiter is not
  modelled. The limiter is a sequential object.
- The wall clock and float timestamps are not modelled. `now` is a
  parameter of type `real`, with no rounding.
- The in-place list update (`hits[:] = …`, `append`) is modelled as
  replacing the token's entry in the map. No other holder of that list
  exists, so the aliasing is not observable.
- Auth.LowerIsBearer: `Lower` lower-cases ASCII letters only. Python lower-cases all of
  Unicode, but no non-ASCII character lower-cases into one of the letters
  of "bearer". So the comparison gives the same verdict.
- Prompts.GenerateSystem: states only that the base prompt of the content
  type comes first. The prompt texts are long literals, and reasoning
  about their characters for a content type that is not fixed is too
  costly for the verifier. The clause rules are proved for any base text
  in `WithClauses`.
