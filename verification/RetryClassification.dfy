/**
  Retry routing of a failure. The text patterns are heuristics and stay abstract; the order in
  which they, the HTTP status, the socket code and the error name are consulted does not.
 */
module RetryClassification {
  import opened Basics

  datatype FailureClass = Transient | Permanent | Unknown

  /** The fields extracted from whatever was thrown. */
  datatype Failure = Failure(
    message: string,
    status: Option<int>,
    code: Option<string>,
    name: string,
    stderr: Option<string>
  )

  datatype Patterns = Patterns(
    rateLimit403: string -> bool,
    auth: string -> bool,
    limit: string -> bool,
    transientText: string -> bool,
    gitTransport: string -> bool,
    htmlInsteadOfJson: string -> bool,
    timeout: string -> bool
  )

  const CONFIG_ERROR_PREFIX := "previewer config error:"

  const NETWORK_CODES: set<string> := {
    "ECONNRESET", "ETIMEDOUT", "ENOTFOUND", "EAI_AGAIN", "ECONNREFUSED",
    "ECONNABORTED", "EPIPE", "EHOSTUNREACH", "ENETUNREACH", "ESOCKETTIMEDOUT"
  }

  /** A structured outcome carries only its message. */
  function OfMessage(message: string): Failure {
    Failure(message, None, None, "string", None)
  }

  function Text(f: Failure): string {
    if f.stderr.Some? && f.stderr.value != "" then f.message + "\n" + f.stderr.value else f.message
  }

  predicate Stamped(f: Failure) {
    CONFIG_ERROR_PREFIX <= f.message
  }

  predicate SocketOrAbort(f: Failure) {
    (f.code.Some? && f.code.value in NETWORK_CODES) || f.name == "AbortError" || f.name == "TimeoutError"
  }

  function Classify(p: Patterns, f: Failure): FailureClass {
    var text := Text(f);
    if Stamped(f) then Transient
    else if f.code.Some? && f.code.value in NETWORK_CODES then Transient
    else if f.name == "AbortError" || f.name == "TimeoutError" then Transient
    else if f.status == Some(429) then Transient
    else if f.status == Some(408) then Transient
    else if f.status.Some? && 500 <= f.status.value <= 599 then Transient
    else if f.status == Some(403) && p.rateLimit403(text) then Transient
    else if f.status.Some? && 400 <= f.status.value <= 499 then Permanent
    else if p.auth(text) then Permanent
    else if p.limit(text) then Transient
    else if p.transientText(text) then Transient
    else if p.gitTransport(text) then Transient
    else if p.htmlInsteadOfJson(text) then Transient
    else if p.timeout(text) then Transient
    else Unknown
  }

  // ---- what the classes mean -------------------------------------------------------------------------

  /** What a failure says: its message, and below it what git wrote to its error stream. */
  function Says(f: Failure): string {
    if f.stderr == None || f.stderr == Some("") then f.message else f.message + "\n" + f.stderr.value
  }

  /** An outage or a throttle, which clears on its own. */
  predicate Clears(p: Patterns, f: Failure) {
    var clientError := f.status.Some? && 400 <= f.status.value < 500;
    || "previewer config error:" <= f.message
    || (f.code.Some? && f.code.value in NETWORK_CODES)
    || f.name in {"AbortError", "TimeoutError"}
    || (f.status.Some? && (f.status.value in {408, 429} || 500 <= f.status.value < 600))
    || (f.status == Some(403) && p.rateLimit403(Says(f)))
    || (!clientError && !p.auth(Says(f))
        && (p.limit(Says(f)) || p.transientText(Says(f)) || p.gitTransport(Says(f)) || p.htmlInsteadOfJson(Says(f))
            || p.timeout(Says(f))))
  }

  /** A refusal, which no retry changes: any other client error, and an authentication failure. */
  predicate Refused(p: Patterns, f: Failure) {
    !Clears(p, f) && ((f.status.Some? && 400 <= f.status.value < 500) || p.auth(Says(f)))
  }

  lemma ClassByCause(p: Patterns, f: Failure)
    ensures Classify(p, f) == if Clears(p, f) then Transient else if Refused(p, f) then Permanent else Unknown
  {
  }

  /** Unstamped failures with this status, code and name are routed alike however their texts read. */
  ghost predicate TextIrrelevant(status: Option<int>, code: Option<string>, name: string) {
    forall p, f, g | !Stamped(f) && !Stamped(g) && f.status == g.status == status
                     && f.code == g.code == code && f.name == g.name == name ::
      Classify(p, f) == Classify(p, g)
  }

  /** Texts matter exactly when neither a socket signal nor an error status other than 403 decides. */
  lemma TextIrrelevantExactly(status: Option<int>, code: Option<string>, name: string)
    ensures TextIrrelevant(status, code, name)
       <==> SocketOrAbort(Failure("", status, code, name, None))
            || (status.Some? && 400 <= status.value <= 599 && status.value != 403)
  {
    var f, g := Failure("limit", status, code, name, None), Failure("", status, code, name, None);
    if !SocketOrAbort(g) && !(status.Some? && 400 <= status.value <= 599 && status.value != 403) {
      var limit, none := (text: string) => text == "limit", (text: string) => false;
      var p := Patterns(limit, limit, none, none, none, none, none);
      assert Text(f) == "limit" && Text(g) == "" && f.message[0] == 'l';
      assert Classify(p, f) != Classify(p, g);
    }
  }

  /** With a 4xx status and no stamp or socket signal, retrying forever needs 408, 429 or a rate-limited 403. */
  lemma ClientErrorIsPermanent(p: Patterns, f: Failure)
    requires f.status.Some? && 400 <= f.status.value <= 499 && !Stamped(f) && !SocketOrAbort(f)
    ensures Classify(p, f).Permanent?
       <==> f.status.value !in {408, 429} && !(f.status.value == 403 && p.rateLimit403(Text(f)))
    ensures !Classify(p, f).Unknown?
  {
  }
}
