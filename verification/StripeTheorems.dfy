/** What the mock promises about whole runs: money is conserved, and an intent is charged once. */
module StripeTheorems {
  import opened StripeStore
  import opened Balances
  import opened StripeInvariant
  import opened StripeRuns

  // ---------- conservation over runs ----------

  lemma InvariantIsNonNegative(s: Store)
    requires Invariant(s)
    ensures NonNegative(s)
  {
    forall id | id in s.intents ensures s.intents[id].appFee >= 0 {
      assert IntentOk(s, id);
    }
    forall id | id in s.refunds ensures s.refunds[id].amount >= 0 {
      assert RefundOk(s, id);
    }
  }

  /** After any run the balances of all that hold money come to what has flowed in. */
  lemma RunsConserveMoney(ops: seq<Op>, accts: set<string>, cur: string)
    requires FreshRun(ops) && Covers(Run(ops), accts)
    ensures TotalBalance(Run(ops), accts, cur) == NetInflow(Run(ops), cur)
  {
    RunsKeepInvariant(ops);
    InvariantIsNonNegative(Run(ops));
    MoneyIsConserved(Run(ops), accts, cur);
  }

  // ---------- one charge per intent ----------

  /** In every reachable store an intent has at most one charge, and one exactly when it has
      succeeded; likewise a transfer, exactly when it also has a destination. */
  lemma OneChargePerIntent(ops: seq<Op>, id: string)
    requires FreshRun(ops) && id in Run(ops).intents
    ensures var s := Run(ops);
            && (forall c, d :: c in s.charges && d in s.charges && s.charges[c].intentID == id == s.charges[d].intentID
                  ==> c == d)
            && (s.intents[id].status.Succeeded? <==> exists c :: c in s.charges && s.charges[c].intentID == id)
            && (s.intents[id].transferID in s.transfers <==>
                s.intents[id].status.Succeeded? && s.intents[id].destination != "")
  {
    var s := Run(ops);
    RunsKeepInvariant(ops);
    assert IntentOk(s, id);
    assert "" in s.transfers ==> TransferOk(s, "");
    forall c | c in s.charges && s.charges[c].intentID == id ensures c == s.intents[id].chargeID && c != "" {
      assert ChargeOk(s, c);
    }
  }
}
