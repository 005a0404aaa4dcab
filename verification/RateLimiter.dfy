/** The registration rate limiter: pruned lists of allowed times, against the full history of allowed requests. */
module RateLimiter {
  import opened Wrappers

  datatype Config = Config(maxPerEmail: int, maxPerSource: int, window: int)

  datatype Request = Request(email: string, source: Option<string>, now: int) {
    /** A missing or empty source is not limited by source. */
    predicate HasSource() {
      source.Some? && source.value != ""
    }
  }

  datatype Limiter = Limiter(emails: map<string, seq<int>>, sources: map<string, seq<int>>)

  const NO_ATTEMPTS := Limiter(map[], map[])

  function Get(m: map<string, seq<int>>, key: string): seq<int> {
    if key in m then m[key] else []
  }

  /** The times still inside the window at `now`, in order. */
  function Recent(times: seq<int>, window: int, now: int): seq<int> {
    if times == [] then []
    else
      var last := times[|times| - 1];
      Recent(times[..|times| - 1], window, now) + (if last + window > now then [last] else [])
  }

  function RecentForSource(sources: map<string, seq<int>>, cfg: Config, req: Request): seq<int> {
    if req.HasSource() then Recent(Get(sources, req.source.value), cfg.window, req.now) else []
  }

  /** One call of the limiter: the answer, and the lists after it. */
  function Allow(l: Limiter, cfg: Config, req: Request): (bool, Limiter) {
    var emailTimes := Recent(Get(l.emails, req.email), cfg.window, req.now);
    var sourceTimes := RecentForSource(l.sources, cfg, req);
    if |emailTimes| >= cfg.maxPerEmail || |sourceTimes| >= cfg.maxPerSource then (false, l)
    else
      (true, Limiter(
         l.emails[req.email := emailTimes + [req.now]],
         if req.HasSource() then l.sources[req.source.value := sourceTimes + [req.now]] else l.sources))
  }

  // ---------- The full history ----------

  function EmailTimes(history: seq<Request>, email: string): seq<int> {
    if history == [] then []
    else
      var last := history[|history| - 1];
      EmailTimes(history[..|history| - 1], email) + (if last.email == email then [last.now] else [])
  }

  function SourceTimes(history: seq<Request>, source: string): seq<int> {
    if history == [] then []
    else
      var last := history[|history| - 1];
      SourceTimes(history[..|history| - 1], source)
      + (if last.HasSource() && last.source.value == source then [last.now] else [])
  }

  /** What a request is counted under. */
  datatype Key = OfEmail(email: string) | OfSource(source: string)

  predicate Bears(req: Request, key: Key) {
    match key
    case OfEmail(email) => req.email == email
    case OfSource(source) => req.source == Some(source)
  }

  /** How many requests of the history bear the key and lie after `since`, and not after `until` if there is one. */
  function Calls(history: seq<Request>, key: Key, since: int, until: Option<int>): nat {
    if history == [] then 0
    else
      var last := history[|history| - 1];
      Calls(history[..|history| - 1], key, since, until)
      + (if Bears(last, key) && since < last.now && (until.Some? ==> last.now <= until.value) then 1 else 0)
  }

  /**
   * The answer of a limiter that forgets nothing and counts the allowed requests inside the window. A missing or
   * empty source has no count.
   */
  predicate FullAnswer(history: seq<Request>, cfg: Config, req: Request) {
    && Calls(history, OfEmail(req.email), req.now - cfg.window, None) < cfg.maxPerEmail
    && (match req.source
        case None => 0
        case Some(source) => if source == "" then 0 else Calls(history, OfSource(source), req.now - cfg.window, None))
       < cfg.maxPerSource
  }

  /** The lists, and the allowed requests in order, after a sequence of calls. */
  function Process(cfg: Config, requests: seq<Request>): (Limiter, seq<Request>) {
    if requests == [] then (NO_ATTEMPTS, [])
    else
      var (l, history) := Process(cfg, requests[..|requests| - 1]);
      var req := requests[|requests| - 1];
      var (allowed, after) := Allow(l, cfg, req);
      (after, if allowed then history + [req] else history)
  }

  ghost predicate ClockMovesForward(requests: seq<Request>) {
    forall i, j :: 0 <= i < j < |requests| ==> requests[i].now <= requests[j].now
  }

  ghost predicate NotAfter(history: seq<Request>, now: int) {
    forall i :: 0 <= i < |history| ==> history[i].now <= now
  }

  // ---------- Pruning ----------

  lemma RecentAppend(times: seq<int>, t: int, window: int, now: int)
    ensures Recent(times + [t], window, now) == Recent(times, window, now) + (if t + window > now then [t] else [])
  {
    assert (times + [t])[..|times|] == times;
  }

  lemma {:induction false} PruningShortens(times: seq<int>, window: int, p: int, now: int)
    ensures |Recent(Recent(times, window, p), window, now)| <= |Recent(times, window, now)|
  {
    if times != [] {
      var init, last := times[..|times| - 1], times[|times| - 1];
      PruningShortens(init, window, p, now);
      RecentAppend(Recent(init, window, p), last, window, now);
      assert Recent(init, window, p) + [] == Recent(init, window, p);
    }
  }

  /** Pruning at p is invisible at `now` exactly when nothing pruned at p is inside the window at `now`. */
  lemma {:induction false} PruningIsInvisibleIff(times: seq<int>, window: int, p: int, now: int)
    ensures Recent(Recent(times, window, p), window, now) == Recent(times, window, now) <==>
            forall i :: 0 <= i < |times| ==> !(now < times[i] + window <= p)
  {
    if times != [] {
      var init, last := times[..|times| - 1], times[|times| - 1];
      var kept, full := Recent(Recent(init, window, p), window, now), Recent(init, window, now);
      PruningIsInvisibleIff(init, window, p, now);
      PruningShortens(init, window, p, now);
      RecentAppend(Recent(init, window, p), last, window, now);
      assert Recent(init, window, p) + [] == Recent(init, window, p);
      assert kept + [] == kept && full + [] == full;
      assert forall i :: 0 <= i < |init| ==> init[i] == times[i];
      if last + window > p {
        assert kept + [last] == full + [last] <==> kept == full by {
          assert (kept + [last])[..|kept|] == kept && (full + [last])[..|full|] == full;
        }
      }
    }
  }

  lemma {:induction false} RecentMembers(times: seq<int>, window: int, now: int)
    ensures forall t :: t in Recent(times, window, now) <==> t in times && t + window > now
  {
    if times != [] {
      RecentMembers(times[..|times| - 1], window, now);
      assert times == times[..|times| - 1] + [times[|times| - 1]];
    }
  }

  /** A list of one length with its pruned self was not pruned. */
  lemma {:induction false} SameCountSameList(times: seq<int>, window: int, p: int, now: int)
    requires |Recent(Recent(times, window, p), window, now)| == |Recent(times, window, now)|
    ensures Recent(Recent(times, window, p), window, now) == Recent(times, window, now)
  {
    if times != [] {
      var init, last := times[..|times| - 1], times[|times| - 1];
      PruningShortens(init, window, p, now);
      RecentAppend(Recent(init, window, p), last, window, now);
      assert Recent(init, window, p) + [] == Recent(init, window, p);
      SameCountSameList(init, window, p, now);
    }
  }

  // ---------- What a list still holds after a run of allowed calls ----------

  /** Every allowed call prunes the list at its own time and appends that time. */
  function Survivors(times: seq<int>, window: int): seq<int> {
    if times == [] then []
    else
      var last := times[|times| - 1];
      Recent(Survivors(times[..|times| - 1], window), window, last) + [last]
  }

  lemma SurvivorsAppend(times: seq<int>, t: int, window: int)
    ensures Survivors(times + [t], window) == Recent(Survivors(times, window), window, t) + [t]
  {
    assert (times + [t])[..|times|] == times;
  }

  /** No time that still counts at `now` had left the window at some later allowed call. */
  ghost predicate NothingForgotten(times: seq<int>, window: int, now: int) {
    forall i, j :: 0 <= i < j < |times| ==> !(now < times[i] + window <= times[j])
  }

  ghost predicate NoneForgottenAt(times: seq<int>, window: int, p: int, now: int) {
    forall i :: 0 <= i < |times| ==> !(now < times[i] + window <= p)
  }

  lemma NothingForgottenAppend(times: seq<int>, t: int, window: int, now: int)
    ensures NothingForgotten(times + [t], window, now) <==>
            NothingForgotten(times, window, now) && NoneForgottenAt(times, window, t, now)
  {
    var longer := times + [t];
    assert forall i :: 0 <= i < |times| ==> longer[i] == times[i];
    if NothingForgotten(longer, window, now) {
      forall i | 0 <= i < |times| ensures !(now < times[i] + window <= t) {
        assert !(now < longer[i] + window <= longer[|times|]);
      }
    }
  }

  /** Lists that count alike at `now` agree on which of their times a pruning would forget. */
  lemma ForgottenFromEither(kept: seq<int>, full: seq<int>, window: int, p: int, now: int)
    requires Recent(kept, window, now) == Recent(full, window, now)
    ensures NoneForgottenAt(kept, window, p, now) <==> NoneForgottenAt(full, window, p, now)
  {
    RecentMembers(kept, window, now);
    RecentMembers(full, window, now);
    assert forall i :: 0 <= i < |kept| && now < kept[i] + window ==> kept[i] in full;
    assert forall i :: 0 <= i < |full| && now < full[i] + window ==> full[i] in kept;
  }

  /** The survivors count like the full list exactly when nothing that still counts was forgotten. */
  lemma {:induction false} SurvivorsCountIff(times: seq<int>, window: int, now: int)
    ensures |Recent(Survivors(times, window), window, now)| <= |Recent(times, window, now)|
    ensures |Recent(Survivors(times, window), window, now)| == |Recent(times, window, now)| <==>
            NothingForgotten(times, window, now)
    ensures NothingForgotten(times, window, now) ==>
              Recent(Survivors(times, window), window, now) == Recent(times, window, now)
  {
    if times != [] {
      var init, last := times[..|times| - 1], times[|times| - 1];
      var kept := Survivors(init, window);
      assert times == init + [last];
      SurvivorsCountIff(init, window, now);
      RecentAppend(Recent(kept, window, last), last, window, now);
      RecentAppend(init, last, window, now);
      PruningShortens(kept, window, last, now);
      PruningIsInvisibleIff(kept, window, last, now);
      NothingForgottenAppend(init, last, window, now);
      if |Recent(Recent(kept, window, last), window, now)| == |Recent(kept, window, now)| {
        SameCountSameList(kept, window, last, now);
      }
      if NothingForgotten(init, window, now) {
        ForgottenFromEither(kept, init, window, last, now);
      }
    }
  }

  ghost predicate ListsAreSurvivors(l: Limiter, history: seq<Request>, window: int) {
    && (forall email :: Get(l.emails, email) == Survivors(EmailTimes(history, email), window))
    && (forall source :: Get(l.sources, source) == Survivors(SourceTimes(history, source), window))
  }

  lemma AllowKeepsSurvivors(l: Limiter, history: seq<Request>, cfg: Config, req: Request)
    requires ListsAreSurvivors(l, history, cfg.window) && Allow(l, cfg, req).0
    ensures ListsAreSurvivors(Allow(l, cfg, req).1, history + [req], cfg.window)
  {
    var after, longer := Allow(l, cfg, req).1, history + [req];
    assert longer[..|history|] == history;
    forall email ensures Get(after.emails, email) == Survivors(EmailTimes(longer, email), cfg.window) {
      assert Get(l.emails, email) == Survivors(EmailTimes(history, email), cfg.window);
      if email == req.email {
        SurvivorsAppend(EmailTimes(history, email), req.now, cfg.window);
      } else {
        assert EmailTimes(longer, email) == EmailTimes(history, email);
      }
    }
    forall source ensures Get(after.sources, source) == Survivors(SourceTimes(longer, source), cfg.window) {
      assert Get(l.sources, source) == Survivors(SourceTimes(history, source), cfg.window);
      if req.HasSource() && source == req.source.value {
        SurvivorsAppend(SourceTimes(history, source), req.now, cfg.window);
      } else {
        assert SourceTimes(longer, source) == SourceTimes(history, source);
      }
    }
  }

  lemma {:induction false} ListsHoldSurvivors(cfg: Config, requests: seq<Request>)
    ensures ListsAreSurvivors(Process(cfg, requests).0, Process(cfg, requests).1, cfg.window)
  {
    if requests != [] {
      var init, req := requests[..|requests| - 1], requests[|requests| - 1];
      ListsHoldSurvivors(cfg, init);
      var (l, history) := Process(cfg, init);
      if Allow(l, cfg, req).0 {
        AllowKeepsSurvivors(l, history, cfg, req);
      }
    }
  }

  /**
   * After any calls at any times, an email's list counts at `now` what its full history counts exactly when no
   * allowed call came so late that it pruned a time still inside the window at `now`; otherwise it counts less.
   */
  lemma EmailListCountsInFullIff(cfg: Config, requests: seq<Request>, email: string, now: int)
    ensures var kept := Get(Process(cfg, requests).0.emails, email);
            var times := EmailTimes(Process(cfg, requests).1, email);
            && |Recent(kept, cfg.window, now)| <= |Recent(times, cfg.window, now)|
            && (|Recent(kept, cfg.window, now)| == |Recent(times, cfg.window, now)| <==>
                forall i, j :: 0 <= i < j < |times| ==> !(now < times[i] + cfg.window <= times[j]))
  {
    ListsHoldSurvivors(cfg, requests);
    SurvivorsCountIff(EmailTimes(Process(cfg, requests).1, email), cfg.window, now);
  }

  /** The same for a source. */
  lemma SourceListCountsInFullIff(cfg: Config, requests: seq<Request>, source: string, now: int)
    ensures var kept := Get(Process(cfg, requests).0.sources, source);
            var times := SourceTimes(Process(cfg, requests).1, source);
            && |Recent(kept, cfg.window, now)| <= |Recent(times, cfg.window, now)|
            && (|Recent(kept, cfg.window, now)| == |Recent(times, cfg.window, now)| <==>
                forall i, j :: 0 <= i < j < |times| ==> !(now < times[i] + cfg.window <= times[j]))
  {
    ListsHoldSurvivors(cfg, requests);
    SurvivorsCountIff(SourceTimes(Process(cfg, requests).1, source), cfg.window, now);
  }

  /** Nothing that counts for the request has been forgotten. */
  ghost predicate NothingForgottenFor(history: seq<Request>, cfg: Config, req: Request) {
    && NothingForgotten(EmailTimes(history, req.email), cfg.window, req.now)
    && (req.source.Some? && req.source.value != "" ==>
          NothingForgotten(SourceTimes(history, req.source.value), cfg.window, req.now))
  }

  /** The times of an email count inside the window what its requests count. */
  lemma {:induction false} EmailTimesCount(history: seq<Request>, email: string, window: int, now: int)
    ensures |Recent(EmailTimes(history, email), window, now)| == Calls(history, OfEmail(email), now - window, None)
  {
    if history != [] {
      var init, last := history[..|history| - 1], history[|history| - 1];
      EmailTimesCount(init, email, window, now);
      if last.email == email {
        RecentAppend(EmailTimes(init, email), last.now, window, now);
      } else {
        assert EmailTimes(history, email) == EmailTimes(init, email);
      }
    }
  }

  lemma {:induction false} SourceTimesCount(history: seq<Request>, source: string, window: int, now: int)
    requires source != ""
    ensures |Recent(SourceTimes(history, source), window, now)| == Calls(history, OfSource(source), now - window, None)
  {
    if history != [] {
      var init, last := history[..|history| - 1], history[|history| - 1];
      SourceTimesCount(init, source, window, now);
      if last.source == Some(source) {
        RecentAppend(SourceTimes(init, source), last.now, window, now);
      } else {
        assert SourceTimes(history, source) == SourceTimes(init, source);
      }
    }
  }

  lemma FullAnswerByTimes(history: seq<Request>, cfg: Config, req: Request)
    ensures FullAnswer(history, cfg, req) <==>
            && |Recent(EmailTimes(history, req.email), cfg.window, req.now)| < cfg.maxPerEmail
            && (if req.HasSource() then |Recent(SourceTimes(history, req.source.value), cfg.window, req.now)| else 0)
               < cfg.maxPerSource
  {
    EmailTimesCount(history, req.email, cfg.window, req.now);
    if req.source.Some? && req.source.value != "" {
      SourceTimesCount(history, req.source.value, cfg.window, req.now);
    }
  }

  /** The limiter, after these calls, answers this one as counting the whole history of allowed calls would. */
  ghost predicate AnswersInFull(cfg: Config, requests: seq<Request>, req: Request) {
    Allow(Process(cfg, requests).0, cfg, req).0 <==> FullAnswer(Process(cfg, requests).1, cfg, req)
  }

  /** The limiter never refuses what counting in full would allow, and while nothing is forgotten it answers alike. */
  lemma AnswerIsFullUnlessForgotten(cfg: Config, requests: seq<Request>, req: Request)
    ensures FullAnswer(Process(cfg, requests).1, cfg, req) ==> Allow(Process(cfg, requests).0, cfg, req).0
    ensures NothingForgottenFor(Process(cfg, requests).1, cfg, req) ==> AnswersInFull(cfg, requests, req)
  {
    FullAnswerByTimes(Process(cfg, requests).1, cfg, req);
    EmailListCountsInFullIff(cfg, requests, req.email, req.now);
    if req.HasSource() {
      SourceListCountsInFullIff(cfg, requests, req.source.value, req.now);
    }
  }

  lemma {:induction false} TimesComeFromHistory(history: seq<Request>, email: string, source: string, now: int)
    requires NotAfter(history, now)
    ensures forall i :: 0 <= i < |EmailTimes(history, email)| ==> EmailTimes(history, email)[i] <= now
    ensures forall i :: 0 <= i < |SourceTimes(history, source)| ==> SourceTimes(history, source)[i] <= now
  {
    if history != [] {
      TimesComeFromHistory(history[..|history| - 1], email, source, now);
    }
  }

  lemma {:induction false} HistoryComesFromRequests(cfg: Config, requests: seq<Request>, now: int)
    requires NotAfter(requests, now)
    ensures NotAfter(Process(cfg, requests).1, now)
  {
    if requests != [] {
      HistoryComesFromRequests(cfg, requests[..|requests| - 1], now);
    }
  }

  lemma NothingForgottenInOrder(history: seq<Request>, cfg: Config, req: Request)
    requires NotAfter(history, req.now)
    ensures NothingForgottenFor(history, cfg, req)
  {
    TimesComeFromHistory(history, req.email, if req.HasSource() then req.source.value else "", req.now);
  }

  /** A call that is not earlier than any call before it is answered as counting the full history would answer it. */
  lemma AnswersMatchFullHistory(cfg: Config, requests: seq<Request>, req: Request)
    requires NotAfter(requests, req.now)
    ensures AnswersInFull(cfg, requests, req)
  {
    HistoryComesFromRequests(cfg, requests, req.now);
    NothingForgottenInOrder(Process(cfg, requests).1, cfg, req);
    AnswerIsFullUnlessForgotten(cfg, requests, req);
  }

  lemma ProcessAppend(cfg: Config, requests: seq<Request>, req: Request)
    ensures var (l, history) := Process(cfg, requests);
            var (allowed, after) := Allow(l, cfg, req);
            Process(cfg, requests + [req]) == (after, if allowed then history + [req] else history)
  {
    assert (requests + [req])[..|requests|] == requests;
  }

  lemma EmailTimesAppend(history: seq<Request>, req: Request)
    ensures EmailTimes(history + [req], req.email) == EmailTimes(history, req.email) + [req.now]
  {
    assert (history + [req])[..|history|] == history;
  }

  /** The first two allowed calls for an email, the second after the first has left the window. */
  lemma TwoSpacedCalls(cfg: Config, email: string, t: int, u: int)
    requires cfg.maxPerEmail > 0 && cfg.maxPerSource > 0 && t + cfg.window <= u
    ensures var requests := [Request(email, None, t), Request(email, None, u)];
            && Get(Process(cfg, requests).0.emails, email) == [u]
            && EmailTimes(Process(cfg, requests).1, email) == [t, u]
  {
    var first, second := Request(email, None, t), Request(email, None, u);
    ProcessAppend(cfg, [], first);
    ProcessAppend(cfg, [first], second);
    assert [] + [first] == [first] && [first] + [second] == [first, second];
    RecentAppend([], t, cfg.window, u);
    assert [] + [t] == [t];
    EmailTimesAppend([], first);
    EmailTimesAppend([first], second);
  }

  /**
   * With a clock that goes back, pruning can forget: window 10 and two per email, calls at 0 and 20, and a third
   * at 5 is allowed although both earlier ones count at 5.
   */
  lemma ClockGoingBackForgets()
    ensures var cfg := Config(2, 10, 10);
            var requests := [Request("a", None, 0), Request("a", None, 20)];
            var late := Request("a", None, 5);
            && Allow(Process(cfg, requests).0, cfg, late).0
            && !FullAnswer(Process(cfg, requests).1, cfg, late)
  {
    var cfg, requests := Config(2, 10, 10), [Request("a", None, 0), Request("a", None, 20)];
    FullAnswerByTimes(Process(cfg, requests).1, cfg, Request("a", None, 5));
    TwoSpacedCalls(cfg, "a", 0, 20);
    assert [] + [20] == [20] && [0] + [20] == [0, 20] && [] + [0] == [0];
    RecentAppend([], 20, 10, 5);
    RecentAppend([], 0, 10, 5);
    RecentAppend([0], 20, 10, 5);
  }

  // ---------- The sliding window ----------

  function AtLeastZero(n: int): nat {
    if n < 0 then 0 else n
  }

  /** The window (t - W, t] holds at most the allowed number of requests of each email and of each source. */
  ghost predicate WithinCaps(history: seq<Request>, cfg: Config, t: int) {
    && (forall email :: Calls(history, OfEmail(email), t - cfg.window, Some(t)) <= AtLeastZero(cfg.maxPerEmail))
    && (forall source :: source != "" ==>
          Calls(history, OfSource(source), t - cfg.window, Some(t)) <= AtLeastZero(cfg.maxPerSource))
  }

  /** No call came when something that counted for it had been forgotten. */
  ghost predicate NothingForgottenInRun(cfg: Config, requests: seq<Request>) {
    forall k :: 0 <= k < |requests| ==> NothingForgottenFor(Process(cfg, requests[..k]).1, cfg, requests[k])
  }

  lemma CallsAppend(history: seq<Request>, req: Request, key: Key, since: int, until: Option<int>)
    ensures Calls(history + [req], key, since, until) ==
            Calls(history, key, since, until)
            + (if Bears(req, key) && since < req.now && (until.Some? ==> req.now <= until.value) then 1 else 0)
  {
    assert (history + [req])[..|history|] == history;
  }

  lemma {:induction false} NarrowerCountsLess(history: seq<Request>, key: Key, since: int, t: int, earlier: int)
    requires earlier <= since
    ensures Calls(history, key, since, Some(t)) <= Calls(history, key, earlier, None)
  {
    if history != [] {
      NarrowerCountsLess(history[..|history| - 1], key, since, t, earlier);
    }
  }

  lemma AllowedCallKeepsCaps(history: seq<Request>, cfg: Config, req: Request, t: int)
    requires WithinCaps(history, cfg, t) && FullAnswer(history, cfg, req)
    ensures WithinCaps(history + [req], cfg, t)
  {
    var since := t - cfg.window;
    forall email
      ensures Calls(history + [req], OfEmail(email), since, Some(t)) <= AtLeastZero(cfg.maxPerEmail)
    {
      CallsAppend(history, req, OfEmail(email), since, Some(t));
      if email == req.email && req.now <= t {
        NarrowerCountsLess(history, OfEmail(email), since, t, req.now - cfg.window);
      }
    }
    forall source | source != ""
      ensures Calls(history + [req], OfSource(source), since, Some(t)) <= AtLeastZero(cfg.maxPerSource)
    {
      CallsAppend(history, req, OfSource(source), since, Some(t));
      if req.source == Some(source) && req.now <= t {
        NarrowerCountsLess(history, OfSource(source), since, t, req.now - cfg.window);
      }
    }
  }

  lemma {:induction false} WindowBoundUnlessForgotten(cfg: Config, requests: seq<Request>, t: int)
    requires NothingForgottenInRun(cfg, requests)
    ensures WithinCaps(Process(cfg, requests).1, cfg, t)
  {
    if requests != [] {
      var init, req := requests[..|requests| - 1], requests[|requests| - 1];
      assert NothingForgottenInRun(cfg, init) by {
        forall k | 0 <= k < |init| ensures NothingForgottenFor(Process(cfg, init[..k]).1, cfg, init[k]) {
          assert requests[..k] == init[..k] && requests[k] == init[k];
        }
      }
      WindowBoundUnlessForgotten(cfg, init, t);
      AnswerIsFullUnlessForgotten(cfg, init, req);
      if Allow(Process(cfg, init).0, cfg, req).0 {
        AllowedCallKeepsCaps(Process(cfg, init).1, cfg, req, t);
      }
    }
  }

  /** Any window (t - W, t] holds at most max_per_email allowed requests of one email, and the same per source. */
  lemma WindowBound(cfg: Config, requests: seq<Request>, t: int)
    requires ClockMovesForward(requests)
    ensures var history := Process(cfg, requests).1;
            && (forall email ::
                  Calls(history, OfEmail(email), t - cfg.window, Some(t)) <= AtLeastZero(cfg.maxPerEmail))
            && (forall source :: source != "" ==>
                  Calls(history, OfSource(source), t - cfg.window, Some(t)) <= AtLeastZero(cfg.maxPerSource))
  {
    forall k | 0 <= k < |requests| ensures NothingForgottenFor(Process(cfg, requests[..k]).1, cfg, requests[k]) {
      HistoryComesFromRequests(cfg, requests[..k], requests[k].now);
      NothingForgottenInOrder(Process(cfg, requests[..k]).1, cfg, requests[k]);
    }
    WindowBoundUnlessForgotten(cfg, requests, t);
  }

  /** A request without a source, or with an empty one, is refused for its email only, and no source is charged. */
  lemma SourcelessAnswer(l: Limiter, cfg: Config, req: Request)
    requires req.source == None || req.source == Some("")
    ensures var emailTimes := Recent(Get(l.emails, req.email), cfg.window, req.now);
            Allow(l, cfg, req).0 <==> |emailTimes| < cfg.maxPerEmail && 0 < cfg.maxPerSource
    ensures Allow(l, cfg, req).1.sources == l.sources
  {
  }

  // ---------- The limiter object ----------

  class InMemoryRegistrationRateLimiter {
    const cfg: Config
    var emailAttempts: map<string, seq<int>>
    var sourceAttempts: map<string, seq<int>>

    ghost function Lists(): Limiter
      reads this
    {
      Limiter(emailAttempts, sourceAttempts)
    }

    constructor (maxPerEmail: int, maxPerSource: int, window: int)
      ensures cfg == Config(maxPerEmail, maxPerSource, window)
      ensures Lists() == NO_ATTEMPTS
    {
      cfg := Config(maxPerEmail, maxPerSource, window);
      emailAttempts, sourceAttempts := map[], map[];
    }

    /** A denied request changes nothing. */
    method AllowRequest(email: string, source: Option<string>, now: int) returns (allowed: bool)
      modifies this
      ensures (allowed, Lists()) == Allow(old(Lists()), cfg, Request(email, source, now))
      ensures !allowed ==> Lists() == old(Lists())
      ensures allowed ==>
                var times := Recent(Get(old(emailAttempts), email), cfg.window, now);
                emailAttempts == old(emailAttempts)[email := times + [now]]
      ensures allowed && source.Some? && source.value != "" ==>
                var times := Recent(Get(old(sourceAttempts), source.value), cfg.window, now);
                sourceAttempts == old(sourceAttempts)[source.value := times + [now]]
      ensures source == None || source == Some("") ==> sourceAttempts == old(sourceAttempts)
    {
      var hasSource := source.Some? && source.value != "";
      var emailTimes := Recent(Get(emailAttempts, email), cfg.window, now);
      var sourceTimes := if hasSource then Recent(Get(sourceAttempts, source.value), cfg.window, now) else [];
      if |emailTimes| >= cfg.maxPerEmail || |sourceTimes| >= cfg.maxPerSource {
        return false;
      }
      emailAttempts := emailAttempts[email := emailTimes + [now]];
      if hasSource {
        sourceAttempts := sourceAttempts[source.value := sourceTimes + [now]];
      }
      return true;
    }
  }
}
