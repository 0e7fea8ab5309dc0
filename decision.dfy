/** What a connection's handling ends in (`Admit` or a `RejectReason`), and
    the spam decision over a complete ActivityPub request body. */
module Decision {
  import opened Bytes

  /** The closed set of rejections of `filter::RejectReason`. Diagnostic
      payloads that are lossy renderings of the body keep the raw body. */
  datatype RejectReason =
    | Timeout
    | IO
    | Query
    | ConnectionTerminated
    | MalformedHeader(what: string)
    | BadRequest(what: string)
    | InvalidRequest(what: string, body: seq<byte>)
    | Spam(body: seq<byte>)

  /** `Ok(Admit { .. })` (the socket itself is the rest of the script),
      `Err(reason)`, or the task panicking. */
  datatype Outcome =
    | Admit(pendingHeader: seq<byte>, pendingBody: seq<byte>)
    | Reject(reason: RejectReason)
    | Panic

  /** What `serde_json` and the accessors `as_object().get(..).as_str()` give
      for an activity: the string values of its top-level `type` and `actor`
      members, when the document is an object that has them as strings. */
  datatype Document = Document(activityType: Option<string>, actor: Option<string>)

  /** A parsed actor URL: its serialisation (`Url::as_str`) and host. */
  datatype Url = Url(serialization: string, host: Option<string>)

  /** Follower and following counts of an instance or a user. */
  datatype Stats = Stats(followers: int, following: int)

  /** A reputation lookup: a record, no record, or a database/pool error. */
  datatype Lookup = Record(stats: Stats) | NoRecord | QueryError

  /** The foreign calls the decision makes, taken as given functions. */
  datatype Env = Env(
    parseJson: seq<byte> -> Option<Document>,
    parseUrl: string -> Option<Url>,
    instanceStats: string -> Lookup,
    userStats: string -> Lookup)

  /** A reputation query, in the order it was issued. */
  datatype ReputationQuery = InstanceQuery(host: string) | UserQuery(actor: string)

  datatype Verdict = Verdict(outcome: Outcome, queries: seq<ReputationQuery>)

  /** Instances with fewer followers AND fewer followings than this are not
      trusted on their own. */
  const TrustThreshold: int := 5

  /** Only the case of the first letter may vary. */
  predicate IsCreate(activityType: Option<string>)
    ensures IsCreate(activityType) <==>
      activityType.Some? && |activityType.value| == 6 &&
      activityType.value[0] in "Cc" && activityType.value[1..] == "reate"
  {
    match activityType
    case None => false
    case Some(t) =>
      assert |t| == 6 ==> t == [t[0]] + t[1..];
      t == "Create" || t == "create"
  }

  predicate SmallInstance(s: Stats)
  {
    s.followers < TrustThreshold && s.following < TrustThreshold
  }

  predicate DormantUser(s: Stats)
  {
    s.followers == 0 && s.following == 0
  }

  /** The end of the handler once the body is complete. */
  function Decide(header: seq<byte>, body: seq<byte>, env: Env): (v: Verdict)
    ensures v.outcome.Admit? ==> v.outcome == Admit(header, body)
    ensures v.outcome.Reject? ==> v.outcome.reason.InvalidRequest? || v.outcome.reason.Spam? || v.outcome.reason.Query?
    ensures v.outcome != Panic
    ensures v.queries != [] ==>
      env.parseJson(body).Some? && IsCreate(env.parseJson(body).value.activityType)
    ensures |v.queries| <= 2
    ensures |v.queries| > 0 ==> v.queries[0].InstanceQuery?
    ensures |v.queries| == 2 ==> v.queries[1].UserQuery?
    ensures v.outcome.Reject? && v.outcome.reason.Query? ==> v.queries != []
    ensures v.outcome.Reject? && v.outcome.reason.Spam? ==> v.queries != [] && v.outcome.reason.body == body
    ensures v.outcome.Reject? && v.outcome.reason.InvalidRequest? ==> v.queries == [] && v.outcome.reason.body == body
    ensures v.outcome.Admit? ==>
      env.parseJson(body).Some? && (IsCreate(env.parseJson(body).value.activityType) <==> v.queries != [])
  {
    match env.parseJson(body)
    case None => Verdict(Reject(InvalidRequest("malformed JSON", body)), [])
    case Some(doc) =>
      if !IsCreate(doc.activityType) then Verdict(Admit(header, body), [])
      else if doc.actor.None? || env.parseUrl(doc.actor.value).None? then
        Verdict(Reject(InvalidRequest("invalid actor", body)), [])
      else
        var actor := env.parseUrl(doc.actor.value).value;
        if actor.host.None? then Verdict(Reject(InvalidRequest("invalid actor (no host)", body)), [])
        else
          var host := actor.host.value;
          match env.instanceStats(host)
          case QueryError => Verdict(Reject(Query), [InstanceQuery(host)])
          case NoRecord => Verdict(Reject(Spam(body)), [InstanceQuery(host)])
          case Record(instance) =>
            if !SmallInstance(instance) then Verdict(Admit(header, body), [InstanceQuery(host)])
            else
              var queries := [InstanceQuery(host), UserQuery(actor.serialization)];
              match env.userStats(actor.serialization)
              case QueryError => Verdict(Reject(Query), queries)
              case NoRecord => Verdict(Reject(Spam(body)), queries)
              case Record(user) =>
                if DormantUser(user) then Verdict(Reject(Spam(body)), queries)
                else Verdict(Admit(header, body), queries)
  }

  /** A body that is not JSON is an invalid request carrying the body, and
      nothing is queried. */
  lemma MalformedJsonRejected(header: seq<byte>, body: seq<byte>, env: Env)
    requires env.parseJson(body).None?
    ensures Decide(header, body, env) == Verdict(Reject(InvalidRequest("malformed JSON", body)), [])
  {
  }

  /** Anything but a Create activity passes with header and body unchanged and
      without a reputation query. */
  lemma NonCreateAdmitted(header: seq<byte>, body: seq<byte>, env: Env)
    requires env.parseJson(body).Some? && !IsCreate(env.parseJson(body).value.activityType)
    ensures Decide(header, body, env) == Verdict(Admit(header, body), [])
  {
  }

  /** A Create activity whose actor is missing, not a string, not a URL, or a
      URL without a host is an invalid request carrying the body, and nothing
      is queried. */
  lemma InvalidActorRejected(header: seq<byte>, body: seq<byte>, env: Env, doc: Document)
    requires env.parseJson(body) == Some(doc) && IsCreate(doc.activityType)
    ensures doc.actor.None? || env.parseUrl(doc.actor.value).None? ==>
      Decide(header, body, env) == Verdict(Reject(InvalidRequest("invalid actor", body)), [])
    ensures doc.actor.Some? && env.parseUrl(doc.actor.value).Some? && env.parseUrl(doc.actor.value).value.host.None? ==>
      Decide(header, body, env) == Verdict(Reject(InvalidRequest("invalid actor (no host)", body)), [])
  {
  }

  /** The two-tier rule for a Create activity whose actor has a host: the
      instance is asked first; an unknown instance is spam; a trusted one passes
      without asking about the user; for a small one the user is asked, and an
      unknown or dormant user is spam. */
  lemma TwoTierRule(header: seq<byte>, body: seq<byte>, env: Env, doc: Document, actor: Url, host: string)
    requires env.parseJson(body) == Some(doc) && IsCreate(doc.activityType)
    requires doc.actor.Some? && env.parseUrl(doc.actor.value) == Some(actor)
    requires actor.host == Some(host)
    ensures var v := Decide(header, body, env);
      var instance := env.instanceStats(host);
      var user := env.userStats(actor.serialization);
      |v.queries| >= 1 && v.queries[0] == InstanceQuery(host) &&
      (instance.NoRecord? ==> v == Verdict(Reject(Spam(body)), [InstanceQuery(host)])) &&
      (instance.QueryError? ==> v == Verdict(Reject(Query), [InstanceQuery(host)])) &&
      (instance.Record? && !SmallInstance(instance.stats) ==>
         v == Verdict(Admit(header, body), [InstanceQuery(host)])) &&
      (instance.Record? && SmallInstance(instance.stats) ==>
         v.queries == [InstanceQuery(host), UserQuery(actor.serialization)] &&
         (v.outcome == Reject(Spam(body)) <==> user.NoRecord? || (user.Record? && DormantUser(user.stats))) &&
         (v.outcome == Admit(header, body) <==> user.Record? && !DormantUser(user.stats)) &&
         (v.outcome == Reject(Query) <==> user.QueryError?))
  {
  }

  /** Spam is only ever found in a Create activity, and only from a missing
      instance record or from a small instance together with a missing or
      dormant user record. */
  lemma SpamOnlyFromReputation(header: seq<byte>, body: seq<byte>, env: Env)
    requires Decide(header, body, env).outcome.Reject? && Decide(header, body, env).outcome.reason.Spam?
    ensures env.parseJson(body).Some? && IsCreate(env.parseJson(body).value.activityType)
    ensures var v := Decide(header, body, env);
      exists host :: v.queries[0] == InstanceQuery(host) &&
        (env.instanceStats(host).NoRecord? ||
         (env.instanceStats(host).Record? && SmallInstance(env.instanceStats(host).stats) &&
          |v.queries| == 2 &&
          var user := env.userStats(v.queries[1].actor);
          user.NoRecord? || (user.Record? && DormantUser(user.stats))))
  {
    var v := Decide(header, body, env);
    var host := v.queries[0].host;
    assert v.queries[0] == InstanceQuery(host);
  }

  /** `better` has at least the counts of `worse` wherever `worse` has a record. */
  predicate NoWorse(better: Lookup, worse: Lookup)
  {
    worse.Record? ==>
      better.Record? &&
      better.stats.followers >= worse.stats.followers &&
      better.stats.following >= worse.stats.following
  }

  /** Counts as a database returns them: never negative. */
  predicate NonNegative(l: Lookup)
  {
    l.Record? ==> l.stats.followers >= 0 && l.stats.following >= 0
  }

  /** Reputation is monotone: more followers or followings, for the instance or
      for the user, never turn an admitted activity into a rejected one. */
  lemma MoreReputationStillAdmitted(header: seq<byte>, body: seq<byte>, env: Env, better: Env)
    requires better.parseJson == env.parseJson && better.parseUrl == env.parseUrl
    requires forall host :: NoWorse(better.instanceStats(host), env.instanceStats(host))
    requires forall actor :: NoWorse(better.userStats(actor), env.userStats(actor))
    requires forall actor :: NonNegative(env.userStats(actor))
    requires Decide(header, body, env).outcome.Admit?
    ensures Decide(header, body, better).outcome.Admit?
  {
    var doc := env.parseJson(body).value;
    if IsCreate(doc.activityType) {
      var actor := env.parseUrl(doc.actor.value).value;
      var host := actor.host.value;
      assert NoWorse(better.instanceStats(host), env.instanceStats(host));
      assert NoWorse(better.userStats(actor.serialization), env.userStats(actor.serialization));
      assert NonNegative(env.userStats(actor.serialization));
      var instance := env.instanceStats(host).stats;
      var instance' := better.instanceStats(host).stats;
      if SmallInstance(instance') {
        assert SmallInstance(instance);
        var user := env.userStats(actor.serialization).stats;
        var user' := better.userStats(actor.serialization).stats;
        assert !DormantUser(user);
        assert !DormantUser(user');
      }
    }
  }
}
