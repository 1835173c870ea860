/** The wallet: usage records that debit it, Stripe completions that credit it,
    and the database rows they touch. */
module Wallet {
  import opened GoStrings
  import opened StreamTypes
  import opened Pricing

  datatype KeySource = PlatformHosted | CustomerBYOKBrowser | CustomerBYOKExternal | CustomerBYOKVault

  datatype UsageRow = UsageRow(org: Bytes, billable: bool, cents: int)

  datatype EntryKind = DebitEntry | TopupEntry

  datatype Entry = Entry(org: Bytes, kind: EntryKind, amountCents: int, externalRef: Bytes)

  datatype Topup = Topup(id: Bytes, org: Bytes, amountCents: int, session: Bytes, completed: bool)

  /** The tables that matter to a balance. */
  datatype Tables = Tables(
    usage: map<Bytes, UsageRow>, ledger: seq<Entry>, processed: set<Bytes>, topups: seq<Topup>)

  /** Which database statement of a call fails, if any: the lookup before the
      transaction, one of the statements in it, or its commit. */
  datatype Fault = NoFault | LookupFails | FirstFails | SecondFails | ThirdFails | CommitFails

  /** How a call ends: its transaction is committed, committed without effect
      because the event is already known, or nothing is kept. */
  datatype Outcome = Committed | Duplicate | Failed

  // ---------- the tables ----------

  /** `CurrentBalance`: the sum over the organization's ledger rows. */
  function Balance(ledger: seq<Entry>, org: Bytes): int {
    if ledger == [] then 0
    else
      var n := |ledger| - 1;
      Balance(ledger[..n], org) + if ledger[n].org == org then ledger[n].amountCents else 0
  }

  /** The unique index on (org_id, external_ref). */
  predicate HasRef(ledger: seq<Entry>, org: Bytes, ref: Bytes) {
    exists k :: 0 <= k < |ledger| && ledger[k].org == org && ledger[k].externalRef == ref
  }

  function FindSession(topups: seq<Topup>, session: Bytes): Option<Topup> {
    if topups == [] then None
    else if topups[0].session == session then Some(topups[0])
    else FindSession(topups[1..], session)
  }

  predicate HasTopup(topups: seq<Topup>, id: Bytes, org: Bytes) {
    exists k :: 0 <= k < |topups| && topups[k].id == id && topups[k].org == org
  }

  /** `UPDATE stripe_topups SET status = 'completed' WHERE id = $1 AND org_id = $2`. */
  function CompletedTopups(topups: seq<Topup>, id: Bytes, org: Bytes): seq<Topup> {
    seq(|topups|, k requires 0 <= k < |topups| =>
      if topups[k].id == id && topups[k].org == org then topups[k].(completed := true) else topups[k])
  }

  // ---------- recording usage ----------

  /** What a usage costs the wallet: nothing with the customer's own key. */
  function Cost(
    catalog: Option<map<Bytes, HostedModelPrice>>, model: Bytes, source: KeySource, usage: Usage, ctx: PricingContext):
    Option<int>
  {
    if source != PlatformHosted then Some(0)
    else if catalog.None? || TrimSpace(model) !in catalog.value then None
    else Some(ChargeFor(catalog.value[TrimSpace(model)], ctx, usage))
  }

  /** The transaction of `RecordUsage`. */
  function Record(t: Tables, org: Bytes, usageID: Bytes, billable: bool, cents: int, fault: Fault): (Tables, Outcome) {
    if fault.FirstFails? || usageID in t.usage then (t, Failed)
    else
      var t1 := t.(usage := t.usage[usageID := UsageRow(org, billable, cents)]);
      if !billable || cents <= 0 then (if fault.CommitFails? then (t, Failed) else (t1, Committed))
      else if fault.SecondFails? || HasRef(t.ledger, org, usageID) || fault.CommitFails? then (t, Failed)
      else (t1.(ledger := t.ledger + [Entry(org, DebitEntry, -cents, usageID)]), Committed)
  }

  // ---------- Stripe completions ----------

  datatype Completion = Completion(event: Bytes, session: Bytes, topup: Bytes, org: Bytes, amountCents: int)

  predicate BlankName(s: Bytes) { TrimSpace(s) == [] }

  /** Identifiers the event does not carry come from the top-up of its session. */
  function Resolve(t: Tables, c: Completion, fault: Fault): Option<Completion> {
    if BlankName(c.session) then None
    else if !BlankName(c.topup) && !BlankName(c.org) then Some(c)
    else if fault.LookupFails? then None
    else
      match FindSession(t.topups, c.session)
      case None => None
      case Some(row) =>
        Some(c.(topup := if BlankName(c.topup) then row.id else c.topup,
                org := if BlankName(c.org) then row.org else c.org,
                amountCents := if c.amountCents <= 0 then row.amountCents else c.amountCents))
  }

  /** The transaction of `ApplyStripeCheckoutCompleted`. */
  function Complete(t: Tables, c: Completion, fault: Fault): (Tables, Outcome) {
    if fault.FirstFails? then (t, Failed)
    else if c.event in t.processed then (t, if fault.CommitFails? then Failed else Duplicate)
    else if !HasTopup(t.topups, c.topup, c.org) then (t, Failed)
    else if fault.SecondFails? || fault.ThirdFails? || fault.CommitFails? then (t, Failed)
    else
      var credited := HasRef(t.ledger, c.org, c.session);
      var row := Entry(c.org, TopupEntry, c.amountCents, c.session);
      (t.(processed := t.processed + {c.event},
          topups := CompletedTopups(t.topups, c.topup, c.org),
          ledger := if credited then t.ledger else t.ledger + [row]), Committed)
  }

  function ApplyCompletion(t: Tables, c: Completion, fault: Fault): (Tables, Outcome) {
    match Resolve(t, c, fault)
    case None => (t, Failed)
    case Some(resolved) => Complete(t, resolved, fault)
  }

  // ---------- the service ----------

  class AppServices {
    const catalog: Option<map<Bytes, HostedModelPrice>>
    var tables: Tables

    constructor (catalog: Option<map<Bytes, HostedModelPrice>>, tables: Tables)
      ensures this.catalog == catalog && this.tables == tables
    {
      this.catalog := catalog;
      this.tables := tables;
    }

    method CurrentBalance(org: Bytes) returns (balance: int)
      ensures balance == Balance(tables.ledger, org)
    {
      balance := 0;
      for n := 0 to |tables.ledger|
        invariant balance == Balance(tables.ledger[..n], org)
      {
        assert tables.ledger[..n + 1][..n] == tables.ledger[..n];
        if tables.ledger[n].org == org {
          balance := balance + tables.ledger[n].amountCents;
        }
      }
      assert tables.ledger[..|tables.ledger|] == tables.ledger;
    }

    method RecordUsage(
      org: Bytes, model: Bytes, source: KeySource, usage: Usage, ctx: PricingContext, usageID: Bytes, fault: Fault)
      returns (outcome: Outcome)
      modifies this`tables
      ensures match Cost(catalog, model, source, usage, ctx)
              case None => outcome == Failed && tables == old(tables)
              case Some(cents) =>
                (tables, outcome) == Record(old(tables), org, usageID, source == PlatformHosted, cents, fault)
    {
      hide TrimSpace, ChargeFor;
      var billable := source == PlatformHosted;
      var estimatedCost := 0;
      if billable {
        var estimate := EstimateUsage(catalog, model, usage, ctx);
        if estimate.NoPrice? {
          return Failed;
        }
        estimatedCost := estimate.billedCents;
      }
      // the transaction works on its own copy of the tables
      var tx := tables;
      if fault.FirstFails? || usageID in tx.usage {
        return Failed;
      }
      tx := tx.(usage := tx.usage[usageID := UsageRow(org, billable, estimatedCost)]);
      if billable && estimatedCost > 0 {
        if fault.SecondFails? || HasRef(tx.ledger, org, usageID) {
          return Failed;
        }
        tx := tx.(ledger := tx.ledger + [Entry(org, DebitEntry, -estimatedCost, usageID)]);
      }
      if fault.CommitFails? {
        return Failed;
      }
      tables := tx;
      return Committed;
    }

    method ApplyStripeCheckoutCompleted(c: Completion, fault: Fault) returns (outcome: Outcome)
      modifies this`tables
      ensures (tables, outcome) == ApplyCompletion(old(tables), c, fault)
    {
      if TrimSpace(c.session) == [] {
        return Failed;
      }
      var topupID, orgID, amountCents := c.topup, c.org, c.amountCents;
      if TrimSpace(topupID) == [] || TrimSpace(orgID) == [] {
        if fault.LookupFails? {
          return Failed;
        }
        var row := FindSession(tables.topups, c.session);
        if row.None? {
          return Failed;
        }
        if TrimSpace(topupID) == [] {
          topupID := row.value.id;
        }
        if TrimSpace(orgID) == [] {
          orgID := row.value.org;
        }
        if amountCents <= 0 {
          amountCents := row.value.amountCents;
        }
      }
      hide TrimSpace, FindSession;
      var tx := tables;
      if fault.FirstFails? {
        return Failed;
      }
      if c.event in tx.processed {
        if fault.CommitFails? {
          return Failed;
        }
        return Duplicate;
      }
      tx := tx.(processed := tx.processed + {c.event});
      if fault.SecondFails? {
        return Failed;
      }
      if !HasTopup(tx.topups, topupID, orgID) {
        return Failed;
      }
      tx := tx.(topups := CompletedTopups(tx.topups, topupID, orgID));
      if fault.ThirdFails? {
        return Failed;
      }
      if !HasRef(tx.ledger, orgID, c.session) {
        tx := tx.(ledger := tx.ledger + [Entry(orgID, TopupEntry, amountCents, c.session)]);
      }
      if fault.CommitFails? {
        return Failed;
      }
      tables := tx;
      return Committed;
    }
  }
}
