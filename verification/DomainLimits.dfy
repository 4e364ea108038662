/** Domain limits: live calls are counted under the caller's domain, where it is registered. */
module DomainLimits {
  import opened Wrappers
  import opened ChannelLimits

  datatype Domains = Domains(calls: map<string, map<string, string>>, limits: map<string, nat>,
                             published: map<string, Counter>) {
    ghost predicate Valid() {
      && limits.Keys == calls.Keys == published.Keys
      && (forall h :: h in calls ==> published[h] == Counter(limits[h], |calls[h]|))
    }

    function Store(domain: string, cache: map<string, string>): Domains
      requires domain in limits
    {
      this.(calls := calls[domain := cache], published := published[domain := Counter(limits[domain], |cache|)])
    }

    function Register(domain: string, limit: nat): Domains {
      Domains(calls[domain := map[]], limits[domain := limit], published[domain := Counter(limit, 0)])
    }

    /** The table after a call is added, and the count and limit reported for it. */
    function Add(session: string, domain: string): (Domains, Option<Counter>)
      requires Valid()
    {
      if domain !in calls then (this, None)
      else
        var d := Store(domain, calls[domain][session := domain]);
        (d, Some(d.published[domain]))
    }
  }

  lemma StoreValid(d: Domains, domain: string, cache: map<string, string>)
    requires d.Valid() && domain in d.calls
    ensures d.Store(domain, cache).Valid()
  {}

  lemma AddValid(d: Domains, session: string, domain: string)
    requires d.Valid()
    ensures d.Add(session, domain).0.Valid()
  {
    if domain in d.calls {
      StoreValid(d, domain, d.calls[domain][session := domain]);
    }
  }

  /** A set-up is told the limit of its domain beside the number of calls there, its own included;
      without a registered domain, nothing. */
  lemma AddReports(d: Domains, session: string, domain: string)
    requires d.Valid()
    ensures d.Add(session, domain).1 ==
      if domain in d.calls then Some(Counter(d.limits[domain], |d.calls[domain].Keys + {session}|)) else None
  {
    if domain in d.calls {
      PutSize(d.calls[domain], session, domain);
    }
  }

  class Limits {
    var calls: map<string, map<string, string>>
    var limits: map<string, nat>
    var published: map<string, Counter>

    function State(): Domains
      reads this
    {
      Domains(calls, limits, published)
    }

    constructor ()
      ensures State() == Domains(map[], map[], map[]) && State().Valid()
    {
      calls, limits, published := map[], map[], map[];
    }

    method RegisterDomain(domain: string, channelLimit: nat)
      requires State().Valid()
      modifies this
      ensures State().Valid() && State() == old(State()).Register(domain, channelLimit)
    {
      calls := calls[domain := map[]];
      limits := limits[domain := channelLimit];
      published := published[domain := Counter(channelLimit, 0)];
    }

    method AddCall(session: string, domain: string) returns (result: Option<Counter>)
      requires State().Valid()
      modifies this
      ensures State().Valid() && (State(), result) == old(State()).Add(session, domain)
    {
      if domain in calls {
        StoreValid(State(), domain, calls[domain][session := domain]);
        calls := calls[domain := calls[domain][session := domain]];
        published := published[domain := Counter(limits[domain], |calls[domain]|)];
        return Some(published[domain]);
      }
      return None;
    }

    /** What a script reads is the active count published for the domain. */
    method GetCallCount(domain: string) returns (count: nat)
      requires State().Valid()
      ensures domain != "" && domain in published ==> count == published[domain].active
      ensures domain == "" || domain !in published ==> count == 0
    {
      count := 0;
      if domain != "" {
        if domain in calls {
          count := |calls[domain]|;
        }
      }
    }
  }

  // ---------------------------------------------------------------------------
  // Histories
  // ---------------------------------------------------------------------------

  datatype DomainEvent = RegisterDomain(domain: string, limit: nat) | AddCall(session: string, domain: string)

  function RunDomains(h: seq<DomainEvent>): (d: Domains)
    ensures d.Valid()
  {
    if h == [] then Domains(map[], map[], map[])
    else
      var d := RunDomains(h[..|h| - 1]);
      match h[|h| - 1]
      case RegisterDomain(domain, limit) => d.Register(domain, limit)
      case AddCall(session, domain) => AddValid(d, session, domain); d.Add(session, domain).0
  }

  /** A domain's limit and the sessions added since it was last registered, by its own events. */
  function Tally(h: seq<DomainEvent>, domain: string): Option<(nat, set<string>)> {
    if h == [] then None
    else
      var e, before := h[|h| - 1], Tally(h[..|h| - 1], domain);
      if e.domain != domain then before
      else if e.RegisterDomain? then Some((e.limit, {}))
      else if before.Some? then Some((before.value.0, before.value.1 + {e.session}))
      else None
  }

  /** Over every history the table holds exactly the registered domains, each with those sessions,
      that limit, and the number of them published beside it. */
  lemma {:induction false} DomainsAre(h: seq<DomainEvent>, domain: string)
    ensures var d, t := RunDomains(h), Tally(h, domain);
      && (domain in d.calls <==> t.Some?)
      && (t.Some? ==> d.limits[domain] == t.value.0 && d.calls[domain].Keys == t.value.1
                      && d.published[domain] == Counter(t.value.0, |t.value.1|))
  {
    if h != [] {
      var front, e := h[..|h| - 1], h[|h| - 1];
      DomainsAre(front, domain);
      DomainStep(RunDomains(front), e, domain);
    }
    var d := RunDomains(h);
    if domain in d.calls {
      assert |d.calls[domain]| == |d.calls[domain].Keys|;
    }
    hide Domains.Register, Domains.Add;
  }

  lemma DomainStep(d: Domains, e: DomainEvent, domain: string)
    requires d.Valid()
    ensures var u := if e.RegisterDomain? then d.Register(e.domain, e.limit) else d.Add(e.session, e.domain).0;
      if e.RegisterDomain? && e.domain == domain
      then domain in u.calls && u.calls[domain] == map[] && domain in u.limits && u.limits[domain] == e.limit
      else (domain in u.calls <==> domain in d.calls)
           && (domain in d.calls ==>
                 && domain in u.limits && u.limits[domain] == d.limits[domain]
                 && u.calls[domain].Keys == d.calls[domain].Keys + (if e.domain == domain then {e.session} else {}))
  {}
}
