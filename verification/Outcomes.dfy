/** internal/fetcher/classify.go and proxyOutcome of internal/worker/pool.go: what a fetch error means for
    the job and for the proxy. */
module Outcomes {
  import opened Commons

  /** An error with what it wraps. Transport, Url and Wrap stand for TransportError, url.Error and an error
      that only adds text; Net is any other net.Error. */
  datatype Err =
    | RateLimit(retryAfter: int)
    | BlockedBy(reason: string)
    | Status(code: int)
    | ContextCanceled
    | DeadlineExceeded
    | PlaywrightTimeout
    | Net(timeout: bool)
    | Plain
    | Transport(inner: Err)
    | Url(inner: Err)
    | Wrap(inner: Err)

  /** The error at the end of the chain. Only the last can be of a kind that wraps nothing. */
  function Root(e: Err): (r: Err)
    ensures !r.Transport? && !r.Url? && !r.Wrap?
  {
    if e.Transport? || e.Url? || e.Wrap? then Root(e.inner) else e
  }

  /** Whether the error itself, without unwrapping, says that it is a timeout. A url.Error asks the error
      it holds. */
  predicate SaysTimeout(e: Err) {
    match e
    case DeadlineExceeded => true
    case Net(timeout) => timeout
    case Url(inner) => SaysTimeout(inner)
    case _ => false
  }

  /** The first net.Error in the chain: none, or whether it is a timeout. */
  function FirstNet(e: Err): Option<bool> {
    match e
    case DeadlineExceeded => Some(true)
    case Net(timeout) => Some(timeout)
    case Url(_) => Some(SaysTimeout(e))
    case Transport(inner) => FirstNet(inner)
    case Wrap(inner) => FirstNet(inner)
    case _ => None
  }

  predicate HasTransport(e: Err) {
    e.Transport? || ((e.Url? || e.Wrap?) && HasTransport(e.inner))
  }

  predicate HasUrl(e: Err) {
    e.Url? || ((e.Transport? || e.Wrap?) && HasUrl(e.inner))
  }

  datatype Outcome =
    | Success | RateLimited | Captcha | Consent | Interstitial | Challenge | Timeout | TransportFailed
    | ServerError | ClientError | Canceled | Other
  {
    predicate Retryable() {
      !Success? && !ClientError? && !Canceled?
    }

    predicate Blocked() {
      Captcha? || Interstitial? || Challenge?
    }
  }

  function Classify(err: Option<Err>): (o: Outcome)
    ensures o.Success? <==> err.None?
  {
    if err.None? then Success
    else
      var e := err.value;
      var root := Root(e);
      if root.RateLimit? then RateLimited
      else if root.BlockedBy? then
        if root.reason == "captcha" then Captcha
        else if root.reason == "consent" then Consent
        else if root.reason == "challenge" then Challenge
        else Interstitial
      else if root.Status? then (if root.code >= 500 then ServerError else ClientError)
      else if root.ContextCanceled? then Canceled
      else if root.DeadlineExceeded? || root.PlaywrightTimeout? then Timeout
      else if FirstNet(e) == Some(true) then Timeout
      else if HasTransport(e) || HasUrl(e) || FirstNet(e).Some? then TransportFailed
      else Other
  }

  /** The wait a rate limit asked for, zero for any other error. */
  function RetryAfterOf(err: Option<Err>): int {
    if err.Some? && Root(err.value).RateLimit? then Root(err.value).retryAfter else 0
  }

  /** Adding text to an error does not change what it means. */
  lemma WrappingKeepsTheClass(e: Err)
    ensures Classify(Some(Wrap(e))) == Classify(Some(e))
    ensures RetryAfterOf(Some(Wrap(e))) == RetryAfterOf(Some(e))
  {
  }

  lemma TimeoutIsFirstNet(e: Err)
    requires SaysTimeout(e)
    ensures FirstNet(e) == Some(true)
  {
  }

  /** Marking an error as a transport failure only gives a class to one that has none. */
  lemma TransportOnlyFillsIn(e: Err)
    ensures Classify(Some(Transport(e))) == if Classify(Some(e)).Other? then TransportFailed else Classify(Some(e))
  {
  }

  /** A url.Error does the same, except that it hides a timeout that its error does not itself report. */
  lemma {:induction false} UrlFillsInOrHidesTimeout(e: Err)
    ensures Classify(Some(Url(e))) ==
            if Classify(Some(e)).Other? || (Root(e).Net? && !SaysTimeout(e)) then TransportFailed
            else Classify(Some(e))
  {
    NetRootHasNet(e);
    if SaysTimeout(e) {
      TimeoutIsFirstNet(e);
    }
  }

  lemma {:induction false} NetRootHasNet(e: Err)
    ensures Root(e).Net? ==> FirstNet(e).Some?
    ensures SaysTimeout(e) || FirstNet(e) == Some(true) ==> Root(e).Net? || Root(e).DeadlineExceeded?
  {
    if e.Transport? || e.Url? || e.Wrap? {
      NetRootHasNet(e.inner);
    }
  }

  // ------------------------------------------- outcomes by what is wrapped

  /** `x` is the error or one that it wraps, as errors.As and errors.Is look for it. */
  predicate Wraps(e: Err, x: Err) {
    e == x || ((e.Transport? || e.Url? || e.Wrap?) && Wraps(e.inner, x))
  }

  ghost predicate WrapsTransport(e: Err) {
    exists inner :: Wraps(e, Transport(inner))
  }

  ghost predicate WrapsUrl(e: Err) {
    exists inner :: Wraps(e, Url(inner))
  }

  /** Nothing but url.Errors around a timeout of the network. */
  predicate AsksTimeout(e: Err) {
    e == Net(true) || (e.Url? && AsksTimeout(e.inner))
  }

  /** A timeout of the network that the first net.Error of the chain reports: a url.Error only asks the error it
      holds itself. */
  ghost predicate ReportsTimeout(e: Err) {
    || AsksTimeout(e)
    || ((e.Transport? || e.Wrap?) && ReportsTimeout(e.inner))
  }

  ghost predicate TimesOut(e: Err) {
    Wraps(e, DeadlineExceeded) || Wraps(e, PlaywrightTimeout) || ReportsTimeout(e)
  }

  /** None of the errors that have a meaning of their own. */
  ghost predicate IsUnclassified(e: Err) {
    Wraps(e, Plain) || exists timeout :: Wraps(e, Net(timeout))
  }

  lemma {:induction false} WrapsItsRoot(e: Err)
    ensures Wraps(e, Root(e))
    ensures forall x :: Wraps(e, x) && !x.Transport? && !x.Url? && !x.Wrap? ==> x == Root(e)
  {
    if e.Transport? || e.Url? || e.Wrap? {
      WrapsItsRoot(e.inner);
    }
  }

  lemma {:induction false} WrapsMarks(e: Err)
    ensures HasTransport(e) <==> WrapsTransport(e)
    ensures HasUrl(e) <==> WrapsUrl(e)
  {
    assert e.Transport? ==> Wraps(e, Transport(e.inner));
    assert e.Url? ==> Wraps(e, Url(e.inner));
    if e.Transport? || e.Url? || e.Wrap? {
      WrapsMarks(e.inner);
      forall inner | Wraps(e.inner, Transport(inner))
        ensures Wraps(e, Transport(inner))
      {
      }
      forall inner | Wraps(e.inner, Url(inner))
        ensures Wraps(e, Url(inner))
      {
      }
    }
  }

  lemma {:induction false} SaysWhatItAsks(e: Err)
    requires !Root(e).DeadlineExceeded?
    ensures SaysTimeout(e) <==> AsksTimeout(e)
  {
    if e.Url? {
      SaysWhatItAsks(e.inner);
    }
  }

  lemma {:induction false} FirstNetReports(e: Err)
    requires !Root(e).DeadlineExceeded?
    ensures FirstNet(e) == Some(true) <==> ReportsTimeout(e)
  {
    SaysWhatItAsks(e);
    if e.Transport? || e.Wrap? {
      FirstNetReports(e.inner);
    }
  }

  lemma OutcomeOfAnswer(e: Err)
    ensures var o := Classify(Some(e));
            && (o.RateLimited? <==> exists wait :: Wraps(e, RateLimit(wait)))
            && (o.ServerError? <==> exists code :: Wraps(e, Status(code)) && code >= 500)
            && (o.ClientError? <==> exists code :: Wraps(e, Status(code)) && code < 500)
            && (o.Canceled? <==> Wraps(e, ContextCanceled))
  {
    WrapsItsRoot(e);
  }

  lemma OutcomeOfBlock(e: Err)
    ensures var o := Classify(Some(e));
            && (o.Captcha? <==> Wraps(e, BlockedBy("captcha")))
            && (o.Consent? <==> Wraps(e, BlockedBy("consent")))
            && (o.Challenge? <==> Wraps(e, BlockedBy("challenge")))
            && (o.Interstitial? <==>
                  exists why :: Wraps(e, BlockedBy(why)) && why != "captcha" && why != "consent" && why != "challenge")
  {
    WrapsItsRoot(e);
  }

  lemma OutcomeOfTrouble(e: Err)
    ensures var o := Classify(Some(e));
            && (o.Timeout? <==> TimesOut(e))
            && (o.TransportFailed? <==>
                  && IsUnclassified(e) && !TimesOut(e)
                  && (WrapsTransport(e) || WrapsUrl(e) || !Wraps(e, Plain)))
            && (o.Other? <==> Wraps(e, Plain) && !WrapsTransport(e) && !WrapsUrl(e))
  {
    WrapsItsRoot(e);
    WrapsMarks(e);
    NetRootHasNet(e);
    if !Root(e).DeadlineExceeded? {
      FirstNetReports(e);
    }
  }

  /** What an error means, for every nesting of what it wraps. */
  lemma OutcomeByChain(e: Err)
    ensures var o := Classify(Some(e));
            && (o.RateLimited? <==> exists wait :: Wraps(e, RateLimit(wait)))
            && (o.Captcha? <==> Wraps(e, BlockedBy("captcha")))
            && (o.Consent? <==> Wraps(e, BlockedBy("consent")))
            && (o.Challenge? <==> Wraps(e, BlockedBy("challenge")))
            && (o.Interstitial? <==>
                  exists why :: Wraps(e, BlockedBy(why)) && why != "captcha" && why != "consent" && why != "challenge")
            && (o.ServerError? <==> exists code :: Wraps(e, Status(code)) && code >= 500)
            && (o.ClientError? <==> exists code :: Wraps(e, Status(code)) && code < 500)
            && (o.Canceled? <==> Wraps(e, ContextCanceled))
            && (o.Timeout? <==> TimesOut(e))
            && (o.TransportFailed? <==>
                  && IsUnclassified(e) && !TimesOut(e)
                  && (WrapsTransport(e) || WrapsUrl(e) || !Wraps(e, Plain)))
            && (o.Other? <==> Wraps(e, Plain) && !WrapsTransport(e) && !WrapsUrl(e))
  {
    OutcomeOfAnswer(e);
    OutcomeOfBlock(e);
    OutcomeOfTrouble(e);
  }

  // ------------------------------------------------- outcomes for the proxy

  /** internal/proxy/pool.go, Outcome. */
  datatype Report = Succeeded | Failed | WasBlocked | WasRateLimited | Neutral

  function ProxyOutcome(o: Outcome): Report {
    match o
    case Success => Succeeded
    case RateLimited => WasRateLimited
    case Captcha => WasBlocked
    case Interstitial => WasBlocked
    case Challenge => WasBlocked
    case Consent => Neutral
    case ClientError => Neutral
    case Canceled => Neutral
    case _ => Failed
  }

  /** Whether Acquire goes straight to another proxy after this outcome. */
  predicate FailsOver(o: Outcome) {
    o.RateLimited? || o.Blocked()
  }

  /** The job moves to another proxy exactly after the outcomes that cool the one it used, all of which
      may be tried again; only a rate limit brings a wait of its own; and no outcome that ends a job is
      held against the proxy. */
  lemma FailoverMeansCooling(err: Option<Err>)
    ensures var o := Classify(err);
            && (FailsOver(o) <==> ProxyOutcome(o).WasBlocked? || ProxyOutcome(o).WasRateLimited?)
            && (FailsOver(o) ==> o.Retryable())
            && (err.None? ==> !o.Retryable() && ProxyOutcome(o).Succeeded?)
            && (RetryAfterOf(err) != 0 ==> ProxyOutcome(o).WasRateLimited?)
            && (!o.Retryable() ==> ProxyOutcome(o).Succeeded? || ProxyOutcome(o).Neutral?)
  {
  }

  /** What an error means for the job and for the proxy, by what it wraps: it is final only for a status below 500
      and a cancellation; the job moves to another proxy at once after a rate limit and every block but a consent
      wall; a consent wall and what is final spare the proxy, and all that is left counts as its failure. */
  lemma MeaningByChain(e: Err)
    ensures var o := Classify(Some(e));
            var limited := exists wait :: Wraps(e, RateLimit(wait));
            var blocked := exists why :: Wraps(e, BlockedBy(why)) && why != "consent";
            var final := Wraps(e, ContextCanceled) || exists code :: Wraps(e, Status(code)) && code < 500;
            && (o.Retryable() <==> !final)
            && (FailsOver(o) <==> limited || blocked)
            && (ProxyOutcome(o) == WasRateLimited <==> limited)
            && (ProxyOutcome(o) == WasBlocked <==> blocked)
            && (ProxyOutcome(o) == Neutral <==> final || Wraps(e, BlockedBy("consent")))
            && (ProxyOutcome(o) == Failed <==>
                  TimesOut(e) || IsUnclassified(e) || exists code :: Wraps(e, Status(code)) && code >= 500)
    ensures forall wait :: Wraps(e, RateLimit(wait)) ==> RetryAfterOf(Some(e)) == wait
  {
    OutcomeByChain(e);
    WrapsItsRoot(e);
    NetRootHasNet(e);
    if !Root(e).DeadlineExceeded? {
      FirstNetReports(e);
    }
  }
}
