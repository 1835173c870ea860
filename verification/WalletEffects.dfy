/** What one call does to the wallet, in terms of the rows it finds. */
module WalletEffects {
  import opened GoStrings
  import opened StreamTypes
  import opened Pricing
  import opened Wallet
  import opened WalletProperties

  /** An organization's ledger has a row under this reference. */
  ghost predicate Taken(ledger: seq<Entry>, org: Bytes, ref: Bytes) {
    exists e :: e in ledger && e.org == org && e.externalRef == ref
  }

  lemma TakenIsHasRef(ledger: seq<Entry>, org: Bytes, ref: Bytes)
    ensures Taken(ledger, org, ref) <==> HasRef(ledger, org, ref)
  {
  }

  /** Every balance is kept, but the one of `org`, which changes by `cents`. */
  ghost predicate PaysIn(before: seq<Entry>, after: seq<Entry>, org: Bytes, cents: int) {
    && Balance(after, org) == Balance(before, org) + cents
    && forall o :: o != org ==> Balance(after, o) == Balance(before, o)
  }

  lemma OneMoreRow(ledger: seq<Entry>, e: Entry)
    ensures PaysIn(ledger, ledger + [e], e.org, e.amountCents)
  {
    forall o
      ensures Balance(ledger + [e], o) == Balance(ledger, o) + if e.org == o then e.amountCents else 0
    {
      BalanceOfOneMore(ledger, e, o);
    }
    hide Balance;
  }

  // ---------- checkout completions ----------

  /** Whom a completion credits, for which top-up, and with how much. */
  datatype Credit = Credit(topup: Bytes, org: Bytes, cents: int)

  predicate LooksUp(c: Completion) {
    TrimSpace(c.topup) == [] || TrimSpace(c.org) == []
  }

  /** The first top-up of a checkout session. */
  predicate FirstOf(topups: seq<Topup>, session: Bytes, k: int) {
    0 <= k < |topups| && topups[k].session == session && forall j :: 0 <= j < k ==> topups[j].session != session
  }

  /** A completion that carries both identifiers is taken at its word, amount
      included.  Otherwise the top-up of its session gives what is missing, and
      the amount if the completion has none above 0. */
  ghost predicate Names(t: Tables, c: Completion, credit: Credit) {
    && TrimSpace(c.session) != []
    && (if LooksUp(c) then
          exists k :: FirstOf(t.topups, c.session, k) && CreditOf(c, t.topups[k], credit)
        else credit == Credit(c.topup, c.org, c.amountCents))
  }

  predicate CreditOf(c: Completion, row: Topup, credit: Credit) {
    && (TrimSpace(c.topup) != [] ==> credit.topup == c.topup)
    && (TrimSpace(c.topup) == [] ==> credit.topup == row.id)
    && (TrimSpace(c.org) != [] ==> credit.org == c.org)
    && (TrimSpace(c.org) == [] ==> credit.org == row.org)
    && (c.amountCents > 0 ==> credit.cents == c.amountCents)
    && (c.amountCents <= 0 ==> credit.cents == row.amountCents)
  }

  /** The top-up that a completion credits. */
  predicate IsPaid(row: Topup, credit: Credit) { row.id == credit.topup && row.org == credit.org }

  ghost predicate AnyPaid(t: Tables, credit: Credit) {
    exists row :: row in t.topups && IsPaid(row, credit)
  }

  /** The matching top-ups are completed, the event is remembered, and the
      organization gets the amount unless its session already has a row. */
  ghost predicate IsCredited(t: Tables, t': Tables, c: Completion, credit: Credit) {
    && t'.usage == t.usage && t'.processed == t.processed + {c.event}
    && |t'.topups| == |t.topups|
    && (forall k :: 0 <= k < |t.topups| ==>
          t'.topups[k] == if IsPaid(t.topups[k], credit) then t.topups[k].(completed := true) else t.topups[k])
    && (if Taken(t.ledger, credit.org, c.session) then t'.ledger == t.ledger
        else t'.ledger == t.ledger + [Entry(credit.org, TopupEntry, credit.cents, c.session)]
             && PaysIn(t.ledger, t'.ledger, credit.org, credit.cents))
  }

  lemma {:induction false} FindsTheFirst(topups: seq<Topup>, session: Bytes)
    ensures match FindSession(topups, session)
            case None => forall k :: 0 <= k < |topups| ==> topups[k].session != session
            case Some(row) => exists k :: FirstOf(topups, session, k) && topups[k] == row
    decreases |topups|
  {
    if topups != [] {
      if topups[0].session == session {
        assert FirstOf(topups, session, 0);
      } else {
        FindsTheFirst(topups[1..], session);
        if FindSession(topups, session).Some? {
          var k :| FirstOf(topups[1..], session, k) && topups[1..][k] == FindSession(topups, session).value;
          assert FirstOf(topups, session, k + 1);
        }
      }
    }
  }

  lemma ResolvesTo(t: Tables, c: Completion, fault: Fault, credit: Credit)
    requires Names(t, c, credit) && !(fault.LookupFails? && LooksUp(c))
    ensures Resolve(t, c, fault) == Some(c.(topup := credit.topup, org := credit.org, amountCents := credit.cents))
  {
    FindsTheFirst(t.topups, c.session);
    hide TrimSpace, FindSession;
  }

  lemma ResolvesFrom(t: Tables, c: Completion, fault: Fault) returns (credit: Credit)
    ensures Resolve(t, c, fault).Some? ==> Names(t, c, credit) && !(fault.LookupFails? && LooksUp(c))
  {
    FindsTheFirst(t.topups, c.session);
    hide TrimSpace, FindSession;
    match Resolve(t, c, fault) {
      case None => credit := Credit([], [], 0);
      case Some(r) => credit := Credit(r.topup, r.org, r.amountCents);
    }
  }

  /** When a completion goes through: exactly if the event is new, the credited
      top-up exists, and no statement that is executed fails. */
  lemma {:induction false} CompletionCommitsIff(t: Tables, c: Completion, fault: Fault, credit: Credit)
    requires Names(t, c, credit)
    ensures ApplyCompletion(t, c, fault).1.Committed? <==>
              && c.event !in t.processed && AnyPaid(t, credit)
              && (fault.NoFault? || (fault.LookupFails? && !LooksUp(c)))
  {
    hide Names, Resolve, CompletedTopups, HasRef, LooksUp;
    if !(fault.LookupFails? && LooksUp(c)) {
      ResolvesTo(t, c, fault, credit);
      TopupIsThere(t, credit);
    } else {
      LookupFailed(t, c, fault);
    }
    hide HasTopup, AnyPaid;
  }

  lemma LookupFailed(t: Tables, c: Completion, fault: Fault)
    requires fault.LookupFails? && LooksUp(c)
    ensures Resolve(t, c, fault).None?
  {
  }

  lemma TopupIsThere(t: Tables, credit: Credit)
    ensures HasTopup(t.topups, credit.topup, credit.org) <==> AnyPaid(t, credit)
  {
    if HasTopup(t.topups, credit.topup, credit.org) {
      var k :| 0 <= k < |t.topups| && t.topups[k].id == credit.topup && t.topups[k].org == credit.org;
      assert IsPaid(t.topups[k], credit);
    }
  }

  /** What a completion does: one that goes through credits whom it names, one
      whose event is already known and one that fails leave every table as it was,
      and one that names nobody fails. */
  lemma {:induction false} CompletionPays(t: Tables, c: Completion, fault: Fault) returns (credit: Credit)
    ensures var (t', outcome) := ApplyCompletion(t, c, fault);
            && (!outcome.Committed? ==> t' == t)
            && (!outcome.Failed? ==> Names(t, c, credit))
            && (outcome.Committed? ==> IsCredited(t, t', c, credit))
            && (outcome.Duplicate? ==> c.event in t.processed)
  {
    hide TrimSpace, Names, Resolve, HasRef, HasTopup, LooksUp, Taken, PaysIn;
    credit := ResolvesFrom(t, c, fault);
    if Resolve(t, c, fault).Some? {
      ResolvesTo(t, c, fault, credit);
      TakenIsHasRef(t.ledger, credit.org, c.session);
      OneMoreRow(t.ledger, Entry(credit.org, TopupEntry, credit.cents, c.session));
    }
  }

  // ---------- usage ----------

  ghost predicate Priced(catalog: Catalog, model: Bytes) {
    catalog.Some? && TrimSpace(model) in catalog.value
  }

  /** What a usage costs: its charge with the platform's key, nothing with the
      customer's own. */
  function Price(catalog: Catalog, model: Bytes, source: KeySource, usage: Usage, ctx: PricingContext): int
    requires source == PlatformHosted ==> Priced(catalog, model)
  {
    if source == PlatformHosted then ChargeFor(catalog.value[TrimSpace(model)], ctx, usage) else 0
  }

  /** The usage has its row, and the organization pays what it costs. */
  ghost predicate IsDebited(t: Tables, t': Tables, org: Bytes, usageID: Bytes, billable: bool, cents: int) {
    && t'.processed == t.processed && t'.topups == t.topups
    && t'.usage == t.usage[usageID := UsageRow(org, billable, cents)]
    && (if cents > 0 then
          && t'.ledger == t.ledger + [Entry(org, DebitEntry, -cents, usageID)]
          && PaysIn(t.ledger, t'.ledger, org, -cents)
        else t'.ledger == t.ledger)
  }

  /** What recording a usage does, and when it goes through: exactly if a hosted
      model has a price, the usage is new, its debit is new, and no statement that
      is executed fails.  Otherwise no table changes. */
  lemma {:induction false} UsagePays(
    catalog: Catalog, t: Tables, org: Bytes, model: Bytes, source: KeySource, usage: Usage, ctx: PricingContext,
    usageID: Bytes, fault: Fault)
    ensures var hosted := source == PlatformHosted;
            var (t', outcome) := Apply(catalog, t, UsageCall(org, model, source, usage, ctx, usageID, fault));
            if hosted && !Priced(catalog, model) then outcome.Failed? && t' == t
            else
              var cents := Price(catalog, model, source, usage, ctx);
              && !outcome.Duplicate?
              && (outcome.Committed? ==> IsDebited(t, t', org, usageID, hosted, cents))
              && (outcome.Failed? ==> t' == t)
              && (outcome.Committed? <==>
                    && usageID !in t.usage && !fault.FirstFails? && !fault.CommitFails?
                    && (cents > 0 ==> !fault.SecondFails? && !Taken(t.ledger, org, usageID)))
  {
    hide TrimSpace, ChargeFor, HasRef, Taken, PaysIn;
    TakenIsHasRef(t.ledger, org, usageID);
    if source != PlatformHosted || Priced(catalog, model) {
      OneMoreRow(t.ledger, Entry(org, DebitEntry, -Price(catalog, model, source, usage, ctx), usageID));
    }
  }
}
