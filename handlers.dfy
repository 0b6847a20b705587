/** The three content operations (main.py:189-255).  Each one runs the
    authorization gate first and, only when it passes, composes the system
    and user messages that go to the language model.  The model call itself
    is not part of this model: a handler's result is the message pair it
    would send. */
module Handlers {
  import opened Wrappers
  import opened RateLimit
  import opened Auth
  import opened Prompts

  /** The system instruction and the user message of one completion request. */
  datatype Messages = Messages(system: string, user: string)

  datatype GenerateRequest = GenerateRequest(kind: ContentType, prompt: string,
                                             tone: Option<string>, language: Option<string>)

  datatype RewriteRequest = RewriteRequest(text: string, style: Option<string>)

  datatype TranslateRequest = TranslateRequest(text: string, sourceLang: Option<string>,
                                               targetLang: Option<string>)

  /** `generate_content`: the base prompt of the kind with its tone and
      language clauses, and the prompt as the user message. */
  method GenerateContent(validTokens: set<string>, limiter: RateLimiter, body: GenerateRequest,
                         authorization: Option<string>, now: real)
    returns (r: Result<Messages, HttpError>)
    requires limiter.Valid()
    modifies limiter
    ensures limiter.Valid()
    ensures limiter.hits == Gate(validTokens, old(limiter.hits), authorization, now).hits
    ensures var gate := Gate(validTokens, old(limiter.hits), authorization, now).result;
            r == if gate.Failure? then Failure(gate.error)
                 else Success(Messages(GenerateSystem(body.kind, body.tone, body.language), body.prompt))
  {
    var token := Authorize(validTokens, limiter, authorization, now);
    if token.Failure? {
      return Failure(token.error);
    }
    var system := GenerateSystem(body.kind, body.tone, body.language);
    r := Success(Messages(system, body.prompt));
  }

  /** `rewrite_content`: the editor prompt with the instruction of the
      requested style, and the text after a fixed request line. */
  method RewriteContent(validTokens: set<string>, limiter: RateLimiter, body: RewriteRequest,
                        authorization: Option<string>, now: real)
    returns (r: Result<Messages, HttpError>)
    requires limiter.Valid()
    modifies limiter
    ensures limiter.Valid()
    ensures limiter.hits == Gate(validTokens, old(limiter.hits), authorization, now).hits
    ensures var gate := Gate(validTokens, old(limiter.hits), authorization, now).result;
            r == if gate.Failure? then Failure(gate.error)
                 else Success(Messages(RewriteSystem(body.style), RewriteUser(body.text)))
  {
    var token := Authorize(validTokens, limiter, authorization, now);
    if token.Failure? {
      return Failure(token.error);
    }
    r := Success(Messages(RewriteSystem(body.style), RewriteUser(body.text)));
  }

  /** `translate_content`: the fixed translator prompt, and the text, with a
      heading naming the languages unless the source language is "auto". */
  method TranslateContent(validTokens: set<string>, limiter: RateLimiter, body: TranslateRequest,
                          authorization: Option<string>, now: real)
    returns (r: Result<Messages, HttpError>)
    requires limiter.Valid()
    modifies limiter
    ensures limiter.Valid()
    ensures limiter.hits == Gate(validTokens, old(limiter.hits), authorization, now).hits
    ensures var gate := Gate(validTokens, old(limiter.hits), authorization, now).result;
            r == if gate.Failure? then Failure(gate.error)
                 else Success(Messages(TranslatorSystem, TranslateUser(body.text, body.sourceLang, body.targetLang)))
  {
    var token := Authorize(validTokens, limiter, authorization, now);
    if token.Failure? {
      return Failure(token.error);
    }
    var user := TranslateUser(body.text, body.sourceLang, body.targetLang);
    r := Success(Messages(TranslatorSystem, user));
  }
}
