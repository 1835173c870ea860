/** What a balance is made of, over every history of calls. */
module WalletProperties {
  import opened GoStrings
  import opened StreamTypes
  import opened Pricing
  import opened Wallet

  /** A call, with everything the outside world decides about it. */
  datatype Call =
    | UsageCall(
        org: Bytes, model: Bytes, source: KeySource, usage: Usage, ctx: PricingContext, usageID: Bytes, fault: Fault)
    | CompletionCall(completion: Completion, fault: Fault)
    | TopupCall(row: Topup)

  type Catalog = Option<map<Bytes, HostedModelPrice>>

  /** One call on the tables; a new top-up only adds its row. */
  function Apply(catalog: Catalog, t: Tables, call: Call): (Tables, Outcome) {
    match call
    case UsageCall(org, model, source, usage, ctx, usageID, fault) =>
      (match Cost(catalog, model, source, usage, ctx)
       case None => (t, Failed)
       case Some(cents) => Record(t, org, usageID, source == PlatformHosted, cents, fault))
    case CompletionCall(c, fault) => ApplyCompletion(t, c, fault)
    case TopupCall(row) => (t.(topups := t.topups + [row]), Committed)
  }

  const EMPTY := Tables(map[], [], {}, [])

  /** The tables after a history of calls on an empty database. */
  function After(catalog: Catalog, calls: seq<Call>): Tables {
    if calls == [] then EMPTY
    else var n := |calls| - 1; Apply(catalog, After(catalog, calls[..n]), calls[n]).0
  }

  function OutcomeAt(catalog: Catalog, calls: seq<Call>, n: nat): Outcome
    requires n < |calls|
  {
    Apply(catalog, After(catalog, calls[..n]), calls[n]).1
  }

  // ---------- the books ----------

  /** The platform-hosted usages of an organization that were recorded and cost
      something, each once. */
  function Debits(catalog: Catalog, calls: seq<Call>, org: Bytes): map<Bytes, int> {
    if calls == [] then map[]
    else
      var n := |calls| - 1;
      var before := Debits(catalog, calls[..n], org);
      match calls[n]
      case UsageCall(o, model, source, usage, ctx, usageID, _) =>
        var cost := Cost(catalog, model, source, usage, ctx);
        if o == org && source == PlatformHosted && OutcomeAt(catalog, calls, n).Committed?
           && cost.Some? && cost.value > 0
        then before[usageID := cost.value] else before
      case _ => before
  }

  /** The completed checkout sessions of an organization, each with the amount of
      its first completion that went through. */
  function Credits(catalog: Catalog, calls: seq<Call>, org: Bytes): map<Bytes, int> {
    if calls == [] then map[]
    else
      var n := |calls| - 1;
      var before := Credits(catalog, calls[..n], org);
      match calls[n]
      case CompletionCall(c, fault) =>
        var resolved := Resolve(After(catalog, calls[..n]), c, fault);
        if OutcomeAt(catalog, calls, n).Committed? && resolved.Some? && resolved.value.org == org
           && c.session !in before
        then before[c.session := resolved.value.amountCents] else before
      case _ => before
  }

  /** The sum of the values of a map. */
  ghost function Sum(m: map<Bytes, int>): int {
    if m == map[] then 0 else var k :| k in m; m[k] + Sum(m - {k})
  }

  lemma {:induction false} SumWithout(m: map<Bytes, int>, k: Bytes)
    requires k in m
    ensures Sum(m) == m[k] + Sum(m - {k})
    decreases |m|
  {
    var j :| j in m && Sum(m) == m[j] + Sum(m - {j});
    if j != k {
      SumWithout(m - {j}, k);
      SumWithout(m - {k}, j);
      assert m - {j} - {k} == m - {k} - {j};
    }
  }

  lemma SumWith(m: map<Bytes, int>, k: Bytes, v: int)
    requires k !in m
    ensures Sum(m[k := v]) == Sum(m) + v
  {
    SumWithout(m[k := v], k);
    assert m[k := v] - {k} == m;
  }

  // ---------- conservation ----------

  lemma BalanceOfOneMore(ledger: seq<Entry>, e: Entry, org: Bytes)
    ensures Balance(ledger + [e], org) == Balance(ledger, org) + if e.org == org then e.amountCents else 0
  {
    assert (ledger + [e])[..|ledger|] == ledger;
  }

  lemma RefsOfOneMore(ledger: seq<Entry>, e: Entry, org: Bytes, ref: Bytes)
    ensures HasRef(ledger + [e], org, ref) <==> HasRef(ledger, org, ref) || (e.org == org && e.externalRef == ref)
  {
    var more := ledger + [e];
    assert more[|ledger|] == e;
    if HasRef(ledger, org, ref) {
      var k :| 0 <= k < |ledger| && ledger[k].org == org && ledger[k].externalRef == ref;
      assert more[k] == ledger[k];
    }
  }

  /** A session of an organization has its credit row. */
  predicate Credited(ledger: seq<Entry>, org: Bytes, session: Bytes) {
    exists k :: 0 <= k < |ledger| &&
      ledger[k].org == org && ledger[k].externalRef == session && ledger[k].kind == TopupEntry
  }

  lemma CreditedOfOneMore(ledger: seq<Entry>, e: Entry, org: Bytes, ref: Bytes)
    ensures Credited(ledger + [e], org, ref) <==>
              Credited(ledger, org, ref) || (e.org == org && e.externalRef == ref && e.kind == TopupEntry)
  {
    var more := ledger + [e];
    assert more[|ledger|] == e;
    if Credited(ledger, org, ref) {
      var k :| 0 <= k < |ledger| &&
        ledger[k].org == org && ledger[k].externalRef == ref && ledger[k].kind == TopupEntry;
      assert more[k] == ledger[k];
    }
  }

  /** The ledger and the books tell the same: a reference is a completed session or
      a debited usage, a session has its credit row exactly if no usage of that
      name was debited, and the balance is made of these credits and all debits. */
  ghost predicate Balanced(t: Tables, org: Bytes, credits: map<Bytes, int>, debits: map<Bytes, int>) {
    && Balance(t.ledger, org) == Sum(credits - debits.Keys) - Sum(debits)
    && (forall ref :: HasRef(t.ledger, org, ref) <==> ref in credits || ref in debits)
    && (forall ref :: Credited(t.ledger, org, ref) <==> ref in credits && ref !in debits)
  }

  lemma UsageKeepsBalance(
    t: Tables, org: Bytes, credits: map<Bytes, int>, debits: map<Bytes, int>,
    payer: Bytes, usageID: Bytes, billable: bool, cents: int, fault: Fault)
    requires Balanced(t, org, credits, debits)
    ensures var (t', outcome) := Record(t, payer, usageID, billable, cents, fault);
            Balanced(t', org, credits,
              if payer == org && billable && outcome.Committed? && cents > 0 then debits[usageID := cents] else debits)
  {
    hide Sum, Balance, HasRef, Credited;
    var (t', outcome) := Record(t, payer, usageID, billable, cents, fault);
    if outcome.Committed? && billable && cents > 0 {
      var e := Entry(payer, DebitEntry, -cents, usageID);
      EntryChanges(t.ledger, e, org);
      if payer == org {
        SumWith(debits, usageID, cents);
        assert credits - debits[usageID := cents].Keys == credits - debits.Keys;
      }
    }
  }

  lemma EntryChanges(ledger: seq<Entry>, e: Entry, org: Bytes)
    ensures Balance(ledger + [e], org) == Balance(ledger, org) + if e.org == org then e.amountCents else 0
    ensures forall ref :: HasRef(ledger + [e], org, ref) <==>
              HasRef(ledger, org, ref) || (e.org == org && e.externalRef == ref)
    ensures forall ref :: Credited(ledger + [e], org, ref) <==>
              Credited(ledger, org, ref) || (e.org == org && e.externalRef == ref && e.kind == TopupEntry)
  {
    hide Balance, HasRef, Credited;
    BalanceOfOneMore(ledger, e, org);
    forall ref
      ensures HasRef(ledger + [e], org, ref) <==> HasRef(ledger, org, ref) || (e.org == org && e.externalRef == ref)
    {
      RefsOfOneMore(ledger, e, org, ref);
    }
    forall ref
      ensures Credited(ledger + [e], org, ref) <==>
                Credited(ledger, org, ref) || (e.org == org && e.externalRef == ref && e.kind == TopupEntry)
    {
      CreditedOfOneMore(ledger, e, org, ref);
    }
  }

  lemma CompletionKeepsBalance(
    t: Tables, org: Bytes, credits: map<Bytes, int>, debits: map<Bytes, int>, c: Completion, fault: Fault)
    requires Balanced(t, org, credits, debits)
    ensures var (t', outcome) := Complete(t, c, fault);
            Balanced(t', org,
              if outcome.Committed? && c.org == org && c.session !in credits
              then credits[c.session := c.amountCents] else credits,
              debits)
  {
    hide Sum, Balance, HasRef, Credited, HasTopup, CompletedTopups;
    var (t', outcome) := Complete(t, c, fault);
    if outcome.Committed? {
      if HasRef(t.ledger, c.org, c.session) {
        if c.org == org && c.session !in credits {
          assert credits[c.session := c.amountCents] - debits.Keys == credits - debits.Keys;
        }
      } else {
        EntryChanges(t.ledger, Entry(c.org, TopupEntry, c.amountCents, c.session), org);
        if c.org == org {
          SumWith(credits - debits.Keys, c.session, c.amountCents);
          assert credits[c.session := c.amountCents] - debits.Keys ==
                 (credits - debits.Keys)[c.session := c.amountCents];
        }
      }
    }
  }

  lemma {:induction false} BooksBalance(catalog: Catalog, calls: seq<Call>, org: Bytes)
    ensures Balanced(After(catalog, calls), org, Credits(catalog, calls, org), Debits(catalog, calls, org))
  {
    hide Balanced, Record, Complete, Cost, Resolve;
    if calls == [] {
      assert Balanced(EMPTY, org, map[], map[]) by { NothingYet(org); }
    } else {
      var n := |calls| - 1;
      var before := calls[..n];
      BooksBalance(catalog, before, org);
      var t, credits, debits := After(catalog, before), Credits(catalog, before, org), Debits(catalog, before, org);
      match calls[n]
      case UsageCall(o, model, source, usage, ctx, usageID, fault) =>
        var cost := Cost(catalog, model, source, usage, ctx);
        if cost.Some? {
          UsageKeepsBalance(t, org, credits, debits, o, usageID, source == PlatformHosted, cost.value, fault);
        }
      case CompletionCall(c, fault) =>
        var resolved := Resolve(t, c, fault);
        if resolved.Some? {
          ResolvedSession(t, c, fault);
          CompletionKeepsBalance(t, org, credits, debits, resolved.value, fault);
        }
      case TopupCall(row) =>
        TopupKeepsBalance(t, org, credits, debits, row);
    }
  }

  lemma NothingYet(org: Bytes)
    ensures Balanced(EMPTY, org, map[], map[])
  {
  }

  lemma ResolvedSession(t: Tables, c: Completion, fault: Fault)
    requires Resolve(t, c, fault).Some?
    ensures Resolve(t, c, fault).value.session == c.session && Resolve(t, c, fault).value.event == c.event
  {
  }

  lemma TopupKeepsBalance(t: Tables, org: Bytes, credits: map<Bytes, int>, debits: map<Bytes, int>, row: Topup)
    requires Balanced(t, org, credits, debits)
    ensures Balanced(t.(topups := t.topups + [row]), org, credits, debits)
  {
  }

  lemma {:induction false} DebitsAreUsages(catalog: Catalog, calls: seq<Call>, org: Bytes, ref: Bytes)
    requires ref in Debits(catalog, calls, org)
    ensures exists i :: 0 <= i < |calls| && calls[i].UsageCall? && calls[i].usageID == ref
    decreases |calls|
  {
    hide Cost, After;
    var n := |calls| - 1;
    if ref in Debits(catalog, calls[..n], org) {
      DebitsAreUsages(catalog, calls[..n], org, ref);
      var i :| 0 <= i < n && calls[..n][i].UsageCall? && calls[..n][i].usageID == ref;
      assert calls[i] == calls[..n][i];
    } else {
      assert calls[n].UsageCall? && calls[n].usageID == ref;
    }
  }

  lemma {:induction false} CreditsAreSessions(catalog: Catalog, calls: seq<Call>, org: Bytes, ref: Bytes)
    requires ref in Credits(catalog, calls, org)
    ensures exists i :: 0 <= i < |calls| && calls[i].CompletionCall? && calls[i].completion.session == ref
    decreases |calls|
  {
    hide Resolve, After;
    var n := |calls| - 1;
    if ref in Credits(catalog, calls[..n], org) {
      CreditsAreSessions(catalog, calls[..n], org, ref);
      var i :| 0 <= i < n && calls[..n][i].CompletionCall? && calls[..n][i].completion.session == ref;
      assert calls[i] == calls[..n][i];
    } else {
      assert calls[n].CompletionCall? && calls[n].completion.session == ref;
    }
  }

  /** No usage is named like a checkout session. */
  predicate NamesApart(calls: seq<Call>) {
    forall i, j :: 0 <= i < |calls| && 0 <= j < |calls| && calls[i].UsageCall? && calls[j].CompletionCall? ==>
      calls[i].usageID != calls[j].completion.session
  }

  /** Wallet conservation: after every history of calls, with duplicates, in any
      order, and with failures rolled back, the balance is the credits of the
      distinct completed sessions minus the cents of the recorded platform-hosted
      usages, provided that no usage is named like a session. */
  lemma {:induction false} WalletConservation(catalog: Catalog, calls: seq<Call>, org: Bytes)
    requires NamesApart(calls)
    ensures Balance(After(catalog, calls).ledger, org) ==
            Sum(Credits(catalog, calls, org)) - Sum(Debits(catalog, calls, org))
  {
    hide After, Credits, Debits, Balance, HasRef, Credited, Sum;
    BooksBalance(catalog, calls, org);
    var credits, debits := Credits(catalog, calls, org), Debits(catalog, calls, org);
    forall ref | ref in credits
      ensures ref !in debits
    {
      CreditsAreSessions(catalog, calls, org, ref);
      if ref in debits {
        DebitsAreUsages(catalog, calls, org, ref);
      }
    }
    assert credits - debits.Keys == credits;
  }

  /** A session has its credit row if and only if it was completed and no debited
      usage has its name: the two share one unique index. */
  lemma {:induction false} CreditedIffNameIsFree(catalog: Catalog, calls: seq<Call>, org: Bytes, session: Bytes)
    ensures Credited(After(catalog, calls).ledger, org, session) <==>
              session in Credits(catalog, calls, org) && session !in Debits(catalog, calls, org)
  {
    hide After, Credits, Debits, Balance, HasRef, Credited, Sum;
    BooksBalance(catalog, calls, org);
  }

  // ---------- single calls ----------

  /** A call that fails leaves every table as it was; so does one that finds its
      event already processed. */
  lemma {:induction false} FailureRollsBack(catalog: Catalog, t: Tables, call: Call)
    ensures !Apply(catalog, t, call).1.Committed? ==> Apply(catalog, t, call).0 == t
  {
    hide Cost, Resolve;
  }

  /** Usage with the customer's own key never touches the ledger. */
  lemma {:induction false} CustomerKeyUsageNeverDebits(catalog: Catalog, t: Tables, call: Call)
    requires call.UsageCall? && call.source != PlatformHosted
    ensures Apply(catalog, t, call).0.ledger == t.ledger
  {
  }

  lemma ProcessedStays(catalog: Catalog, t: Tables, call: Call)
    ensures t.processed <= Apply(catalog, t, call).0.processed
  {
    hide Cost, Resolve, HasRef, HasTopup;
  }

  lemma {:induction false} ProcessedAfter(catalog: Catalog, calls: seq<Call>, k: nat, event: Bytes)
    requires k <= |calls| && event in After(catalog, calls[..k]).processed
    ensures event in After(catalog, calls).processed
    decreases |calls|
  {
    hide Apply;
    if k == |calls| {
      assert calls[..k] == calls;
    } else {
      var n := |calls| - 1;
      assert calls[..n][..k] == calls[..k];
      ProcessedAfter(catalog, calls[..n], k, event);
      ProcessedStays(catalog, After(catalog, calls[..n]), calls[n]);
    }
  }

  /** Redelivery: once a completion event has gone through, every later delivery of
      an event with that id, whatever it says, changes nothing. */
  lemma {:induction false} RedeliveryChangesNothing(
    catalog: Catalog, calls: seq<Call>, k: nat, again: Completion, fault: Fault)
    requires k < |calls| && calls[k].CompletionCall? && calls[k].completion.event == again.event
    requires OutcomeAt(catalog, calls, k).Committed?
    ensures After(catalog, calls + [CompletionCall(again, fault)]) == After(catalog, calls)
  {
    hide HasRef, HasTopup, CompletedTopups, FindSession, TrimSpace;
    var c := calls[k].completion;
    assert calls[..k + 1][..k] == calls[..k];
    var t := After(catalog, calls[..k]);
    assert After(catalog, calls[..k + 1]) == Apply(catalog, t, calls[k]).0;
    assert again.event in After(catalog, calls[..k + 1]).processed;
    ProcessedAfter(catalog, calls, k + 1, again.event);
    assert (calls + [CompletionCall(again, fault)])[..|calls|] == calls;
    KnownEvent(After(catalog, calls), again, fault);
  }

  lemma KnownEvent(t: Tables, c: Completion, fault: Fault)
    requires c.event in t.processed
    ensures ApplyCompletion(t, c, fault).0 == t
  {
    hide TrimSpace, FindSession, HasRef, HasTopup;
  }

  /** Delivered again after a failure, an event has its full effect: a failed
      attempt does not mark the event as processed. */
  lemma {:induction false} RetryAfterFailure(catalog: Catalog, t: Tables, c: Completion, fault: Fault)
    requires ApplyCompletion(t, c, fault).1 == Failed
    ensures ApplyCompletion(ApplyCompletion(t, c, fault).0, c, NoFault) == ApplyCompletion(t, c, NoFault)
  {
    FailureRollsBack(catalog, t, CompletionCall(c, fault));
  }

  // ---------- reordering ----------

  function Deliver(t: Tables, c: Completion): Tables {
    ApplyCompletion(t, c, NoFault).0
  }

  predicate Takes(t: Tables, c: Completion) {
    c.event !in t.processed && HasTopup(t.topups, c.topup, c.org)
  }

  lemma CompletingKeepsTopups(topups: seq<Topup>, id: Bytes, org: Bytes, id': Bytes, org': Bytes)
    ensures HasTopup(CompletedTopups(topups, id, org), id', org') <==> HasTopup(topups, id', org')
  {
    var done := CompletedTopups(topups, id, org);
    assert forall k :: 0 <= k < |topups| ==> done[k].id == topups[k].id && done[k].org == topups[k].org;
  }

  lemma {:induction false} CompletingKeepsSessions(topups: seq<Topup>, id: Bytes, org: Bytes, session: Bytes)
    ensures var before, after := FindSession(topups, session), FindSession(CompletedTopups(topups, id, org), session);
            && before.Some? == after.Some?
            && (before.Some? ==> after.value.(completed := before.value.completed) == before.value)
    decreases |topups|
  {
    if topups != [] {
      CompletingKeepsSessions(topups[1..], id, org, session);
      assert CompletedTopups(topups, id, org)[1..] == CompletedTopups(topups[1..], id, org);
    }
  }

  /** A delivery does not change what another event resolves to. */
  lemma DeliveryKeepsResolution(t: Tables, c: Completion, d: Completion)
    ensures Resolve(Deliver(t, c), d, NoFault) == Resolve(t, d, NoFault)
  {
    hide HasRef, HasTopup, FindSession, CompletedTopups, TrimSpace;
    match Resolve(t, c, NoFault)
    case None =>
    case Some(r) => CompletingKeepsSessions(t.topups, r.topup, r.org, d.session);
  }

  /** What a fault-free completion does to what a later one can see. */
  lemma CompletionEffect(t: Tables, c: Completion, d: Completion, org: Bytes)
    requires c.event != d.event
    ensures var t' := Complete(t, c, NoFault).0;
            && Takes(t', d) == Takes(t, d)
            && (HasRef(t'.ledger, d.org, d.session) <==>
                HasRef(t.ledger, d.org, d.session) || (Takes(t, c) && c.org == d.org && c.session == d.session))
            && Balance(t'.ledger, org) == Balance(t.ledger, org) +
               if Takes(t, c) && !HasRef(t.ledger, c.org, c.session) && c.org == org then c.amountCents else 0
  {
    hide HasTopup, HasRef, CompletedTopups, Balance;
    CompletingKeepsTopups(t.topups, c.topup, c.org, d.topup, d.org);
    var e := Entry(c.org, TopupEntry, c.amountCents, c.session);
    BalanceOfOneMore(t.ledger, e, org);
    RefsOfOneMore(t.ledger, e, d.org, d.session);
  }

  lemma CompletionsCommute(t: Tables, c: Completion, d: Completion, org: Bytes)
    requires c.event != d.event
    requires c.org == d.org && c.session == d.session ==> c.amountCents == d.amountCents
    ensures Balance(Complete(Complete(t, c, NoFault).0, d, NoFault).0.ledger, org) ==
            Balance(Complete(Complete(t, d, NoFault).0, c, NoFault).0.ledger, org)
  {
    hide Complete, Takes, HasRef, Balance;
    CompletionEffect(t, c, d, org);
    CompletionEffect(t, d, c, org);
    CompletionEffect(Complete(t, c, NoFault).0, d, c, org);
    CompletionEffect(Complete(t, d, NoFault).0, c, d, org);
  }

  /** Reordering: two deliveries of different events leave every balance the same
      in either order, if those for the same session resolve to the same amount. */
  lemma {:induction false} DeliveriesCommute(t: Tables, c: Completion, d: Completion, org: Bytes)
    requires c.event != d.event
    requires match (Resolve(t, c, NoFault), Resolve(t, d, NoFault))
             case (Some(r), Some(s)) => r.org == s.org && r.session == s.session ==> r.amountCents == s.amountCents
             case _ => true
    ensures Balance(Deliver(Deliver(t, c), d).ledger, org) == Balance(Deliver(Deliver(t, d), c).ledger, org)
  {
    hide Complete, Resolve, Balance;
    DeliveryKeepsResolution(t, c, d);
    DeliveryKeepsResolution(t, d, c);
    match (Resolve(t, c, NoFault), Resolve(t, d, NoFault))
    case (Some(r), Some(s)) =>
      ResolvedSession(t, c, NoFault);
      ResolvedSession(t, d, NoFault);
      CompletionsCommute(t, r, s, org);
    case _ =>
  }

  // ---------- any number of deliveries in any order ----------

  function DeliverAll(t: Tables, cs: seq<Completion>): Tables
    decreases |cs|
  {
    if cs == [] then t else DeliverAll(Deliver(t, cs[0]), cs[1..])
  }

  /** A delivery that would add a credit row. */
  predicate Counts(t: Tables, c: Completion) {
    var resolved := Resolve(t, c, NoFault);
    resolved.Some? && var r := resolved.value; Takes(t, r) && !HasRef(t.ledger, r.org, r.session)
  }

  predicate SameSession(t: Tables, c: Completion, d: Completion) {
    match (Resolve(t, c, NoFault), Resolve(t, d, NoFault))
    case (Some(r), Some(s)) => r.org == s.org && r.session == s.session
    case _ => false
  }

  predicate SameAmount(t: Tables, c: Completion, d: Completion) {
    match (Resolve(t, c, NoFault), Resolve(t, d, NoFault))
    case (Some(r), Some(s)) => r.amountCents == s.amountCents
    case _ => true
  }

  /** One event says one thing, and one session has one amount. */
  predicate Consistent(t: Tables, cs: seq<Completion>) {
    forall i, j :: 0 <= i < |cs| && 0 <= j < |cs| ==>
      && (cs[i].event == cs[j].event ==> cs[i] == cs[j])
      && (SameSession(t, cs[i], cs[j]) ==> SameAmount(t, cs[i], cs[j]))
  }

  predicate CountsFor(t: Tables, c: Completion, org: Bytes) {
    Counts(t, c) && Resolve(t, c, NoFault).value.org == org
  }

  function Gain(t: Tables, c: Completion): (Bytes, int)
    requires Counts(t, c)
  {
    var r := Resolve(t, c, NoFault).value;
    (r.session, r.amountCents)
  }

  /** The sessions that the deliveries credit to an organization, with their amounts. */
  function Gains(t: Tables, cs: seq<Completion>, org: Bytes): set<(Bytes, int)> {
    set c | c in cs && CountsFor(t, c, org) :: Gain(t, c)
  }

  ghost function Total(gains: set<(Bytes, int)>): int {
    if gains == {} then 0 else var g :| g in gains; g.1 + Total(gains - {g})
  }

  lemma {:induction false} TotalWithout(gains: set<(Bytes, int)>, g: (Bytes, int))
    requires g in gains
    ensures Total(gains) == g.1 + Total(gains - {g})
    decreases |gains|
  {
    var h :| h in gains && Total(gains) == h.1 + Total(gains - {h});
    if h != g {
      TotalWithout(gains - {h}, g);
      TotalWithout(gains - {g}, h);
      assert gains - {h} - {g} == gains - {g} - {h};
    }
  }

  lemma CountsAfter(t: Tables, c: Completion, d: Completion)
    requires c.event == d.event ==> c == d
    ensures Resolve(Deliver(t, c), d, NoFault) == Resolve(t, d, NoFault)
    ensures Counts(Deliver(t, c), d) <==> Counts(t, d) && !(Counts(t, c) && SameSession(t, c, d))
  {
    hide Resolve, HasRef, HasTopup, CompletedTopups, Balance;
    DeliveryKeepsResolution(t, c, d);
    match (Resolve(t, c, NoFault), Resolve(t, d, NoFault))
    case (Some(r), Some(s)) =>
      ResolvedSession(t, c, NoFault);
      ResolvedSession(t, d, NoFault);
      if c.event != d.event {
        CompletionEffect(t, r, s, r.org);
      }
    case _ =>
  }

  lemma DeliveryPays(t: Tables, c: Completion, org: Bytes)
    ensures Balance(Deliver(t, c).ledger, org) ==
            Balance(t.ledger, org) + if CountsFor(t, c, org) then Gain(t, c).1 else 0
  {
    hide Resolve, HasRef, HasTopup, CompletedTopups, Balance;
    match Resolve(t, c, NoFault)
    case Some(r) =>
      ResolvedSession(t, c, NoFault);
      BalanceOfOneMore(t.ledger, Entry(r.org, TopupEntry, r.amountCents, r.session), org);
    case None =>
  }

  /** What one delivery takes out of the gains of those behind it. */
  lemma GainsAfter(t: Tables, cs: seq<Completion>, org: Bytes)
    requires cs != [] && Consistent(t, cs)
    ensures Consistent(Deliver(t, cs[0]), cs[1..])
    ensures var now, later := Gains(t, cs, org), Gains(Deliver(t, cs[0]), cs[1..], org);
            if CountsFor(t, cs[0], org) then Gain(t, cs[0]) in now && later == now - {Gain(t, cs[0])} else later == now
  {
    hide Counts, Resolve, Deliver, Consistent;
    var c, rest, t' := cs[0], cs[1..], Deliver(t, cs[0]);
    forall d | d in cs
      ensures Resolve(t', d, NoFault) == Resolve(t, d, NoFault)
      ensures Counts(t', d) <==> Counts(t, d) && !(Counts(t, c) && SameSession(t, c, d))
      ensures SameSession(t, c, d) ==> SameAmount(t, c, d)
    {
      ConsistentPair(t, cs, c, d);
      CountsAfter(t, c, d);
    }
    assert Consistent(t', rest) by {
      ConsistentStays(t, cs, t');
    }
    assert Counts(t, c) ==> Resolve(t, c, NoFault).Some? by { CountsResolves(t, c); }
    GainsBehind(t, t', cs, org);
  }

  lemma CountsResolves(t: Tables, c: Completion)
    ensures Counts(t, c) ==> Resolve(t, c, NoFault).Some?
  {
  }

  lemma ConsistentPair(t: Tables, cs: seq<Completion>, c: Completion, d: Completion)
    requires Consistent(t, cs) && c in cs && d in cs
    ensures (c.event == d.event ==> c == d) && (SameSession(t, c, d) ==> SameAmount(t, c, d))
  {
  }

  lemma ConsistentStays(t: Tables, cs: seq<Completion>, t': Tables)
    requires cs != [] && Consistent(t, cs)
    requires forall d :: d in cs ==> Resolve(t', d, NoFault) == Resolve(t, d, NoFault)
    ensures Consistent(t', cs[1..])
  {
    hide Resolve;
    var rest := cs[1..];
    forall i, j | 0 <= i < |rest| && 0 <= j < |rest|
      ensures (rest[i].event == rest[j].event ==> rest[i] == rest[j])
      ensures SameSession(t', rest[i], rest[j]) ==> SameAmount(t', rest[i], rest[j])
    {
      assert rest[i] == cs[i + 1] && rest[j] == cs[j + 1];
      ConsistentPair(t, cs, rest[i], rest[j]);
    }
  }

  lemma GainsBehind(t: Tables, t': Tables, cs: seq<Completion>, org: Bytes)
    requires cs != []
    requires forall d :: d in cs ==> Resolve(t', d, NoFault) == Resolve(t, d, NoFault)
    requires forall d :: d in cs ==>
      (Counts(t', d) <==> Counts(t, d) && !(Counts(t, cs[0]) && SameSession(t, cs[0], d)))
    requires forall d :: d in cs ==> (SameSession(t, cs[0], d) ==> SameAmount(t, cs[0], d))
    requires Counts(t, cs[0]) ==> Resolve(t, cs[0], NoFault).Some?
    ensures var now, later := Gains(t, cs, org), Gains(t', cs[1..], org);
            if CountsFor(t, cs[0], org) then Gain(t, cs[0]) in now && later == now - {Gain(t, cs[0])} else later == now
  {
    hide Counts, Resolve;
    var c, rest := cs[0], cs[1..];
    var now, later := Gains(t, cs, org), Gains(t', rest, org);
    forall d | d in cs
      ensures d == c || d in rest
    {
      var k :| 0 <= k < |cs| && cs[k] == d;
      assert k > 0 ==> rest[k - 1] == d;
    }
    forall d | d in cs && CountsFor(t, d, org)
      ensures Resolve(t, d, NoFault).Some?
    {
      CountsResolves(t, d);
    }
    forall g | g in later
      ensures g in now && (CountsFor(t, c, org) ==> g != Gain(t, c))
    {
      var d :| d in rest && CountsFor(t', d, org) && Gain(t', d) == g;
      CountsResolves(t', d);
      assert d in cs && CountsFor(t, d, org) && Gain(t, d) == g;
    }
    forall g | g in now && (CountsFor(t, c, org) ==> g != Gain(t, c))
      ensures g in later
    {
      var d :| d in cs && CountsFor(t, d, org) && Gain(t, d) == g;
      assert d != c;
      assert d in rest && CountsFor(t', d, org) && Gain(t', d) == g;
    }
    if CountsFor(t, c, org) {
      assert Gain(t, c) in now;
    }
  }

  /** Deliveries credit exactly the sessions they are the first to name, each with
      its one amount. */
  lemma {:induction false} DeliveriesCreditTheirGains(t: Tables, cs: seq<Completion>, org: Bytes)
    requires Consistent(t, cs)
    ensures Balance(DeliverAll(t, cs).ledger, org) == Balance(t.ledger, org) + Total(Gains(t, cs, org))
    decreases |cs|
  {
    hide Deliver, Balance, Consistent, Counts, Resolve, Gain;
    if cs == [] {
      assert Gains(t, cs, org) == {};
    } else {
      GainsAfter(t, cs, org);
      DeliveryPays(t, cs[0], org);
      DeliveriesCreditTheirGains(Deliver(t, cs[0]), cs[1..], org);
      if CountsFor(t, cs[0], org) {
        TotalWithout(Gains(t, cs, org), Gain(t, cs[0]));
      }
    }
  }

  /** Order and repetition do not matter: two lists of deliveries of the same
      completions, in any order and each any number of times, leave every balance
      the same, if one event says one thing and one session has one amount. */
  lemma {:induction false} DeliveriesAreASet(t: Tables, cs: seq<Completion>, ds: seq<Completion>, org: Bytes)
    requires Consistent(t, cs) && Consistent(t, ds)
    requires forall c :: c in cs <==> c in ds
    ensures Balance(DeliverAll(t, cs).ledger, org) == Balance(DeliverAll(t, ds).ledger, org)
  {
    hide Deliver, DeliverAll, Balance, Consistent, Counts, Resolve, Gain, CountsFor;
    DeliveriesCreditTheirGains(t, cs, org);
    DeliveriesCreditTheirGains(t, ds, org);
    assert Gains(t, cs, org) == Gains(t, ds, org);
  }
}
