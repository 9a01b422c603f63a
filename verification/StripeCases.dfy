/** Runs in which something happens that a caller might not expect. */
module StripeCases {
  import opened AsciiCase
  import opened Wrappers
  import opened StripeStore
  import opened Ledger
  import opened Balances
  import opened StripeOps
  import opened Checkout
  import opened StripeInvariant
  import opened StripeMoney
  import opened StripeRuns
  import opened StripeLaws
  import opened StripeBooks

  // ---------- a charge made as an account that does not exist ----------

  function ChargeAsGone(): (ops: seq<Op>)
    ensures |ops| == 2
  {
    [OpCreateIntent(IntentParams(Number(1000), "usd", Number(0), false, "", Number(0), "acct_gone", CARD), "pi_1"),
     OpComplete("pi_1", "succeed", "ch_1", "tr_1", 0)]
  }

  function GoneIntent(): Intent {
    Intent(1000, "usd", RequiresConfirmation, false, 0, "", 0, "acct_gone", CARD, "", "", false, 0)
  }

  lemma GoneCreated()
    ensures Fresh(EmptyStore, ChargeAsGone()[0])
    ensures Try(EmptyStore, ChargeAsGone()[0]) == Done(EmptyStore.(intents := map["pi_1" := GoneIntent()]))
  {
  }

  lemma GoneRun()
    ensures var s1 := Run(ChargeAsGone()[..1]);
            && FreshRun(ChargeAsGone()) && s1 == EmptyStore.(intents := map["pi_1" := GoneIntent()])
            && Invariant(s1) && Known(Run(ChargeAsGone())) == {""}
            && Run(ChargeAsGone()) == Settle(s1, "pi_1", GoneIntent(), 1000, 1000, "ch_1", "tr_1", 0)
  {
    var op0 := ChargeAsGone()[0];
    assert ChargeAsGone()[..1] == [op0] && [op0][..0] == [];
    GoneCreated();
    RunsKeepInvariant(ChargeAsGone()[..1]);
  }

  lemma GoneSettles(s: Store, acct: string)
    requires Invariant(s) && s == EmptyStore.(intents := map["pi_1" := GoneIntent()])
    ensures Balance(Settle(s, "pi_1", GoneIntent(), 1000, 1000, "ch_1", "tr_1", 0), acct, "usd") ==
            if acct == "acct_gone" then 941 else 0
  {
    NothingHeld(s, acct, "usd");
    SettleMovesMoney(s, "pi_1", GoneIntent(), 1000, 1000, "ch_1", "tr_1", 0, acct, "usd");
  }

  /** Nothing checks the account a payment intent is made as, so money can land where no account
      is: 1000 charged, 59 in fees, and 941 on the balance of an account that does not exist. */
  lemma UnknownAccountKeepsMoney(acct: string)
    ensures var s := Run(ChargeAsGone());
            && FreshRun(ChargeAsGone()) && Known(s) == {""}
            && Balance(s, acct, "usd") == if acct == "acct_gone" then 941 else 0
  {
    GoneRun();
    GoneSettles(Run(ChargeAsGone()[..1]), acct);
  }

  // ---------- a transfer of more than was captured ----------

  function Asking(manual: bool, share: int): IntentParams {
    IntentParams(Number(1000), "usd", Number(0), manual, "acct_1", Number(share), "", CARD)
  }

  function Asked(manual: bool, share: int, status: IntentStatus): Intent {
    Intent(1000, "usd", status, manual, 0, "acct_1", share, "", CARD, "", "", false, 0)
  }

  function OversizedShare(): seq<Op> {
    [OpAccount("acct_1"), OpCreateIntent(Asking(false, 5000), "pi_1"), OpComplete("pi_1", "succeed", "ch_1", "tr_1", 0)]
  }

  function PartialCapture(): seq<Op> {
    [OpAccount("acct_1"), OpCreateIntent(Asking(true, 500), "pi_1"), OpConfirm("pi_1", ""),
     OpCapture("pi_1", Number(100), "ch_1", "tr_1", 0)]
  }

  const OneAccount := EmptyStore.(accounts := {"acct_1"})

  lemma RunSnoc(ops: seq<Op>, op: Op)
    ensures Run(ops + [op]) == Step(Run(ops), op)
    ensures FreshRun(ops + [op]) <==> FreshRun(ops) && Fresh(Run(ops), op)
  {
    assert (ops + [op])[..|ops|] == ops;
  }

  lemma AskedRun(manual: bool, share: int)
    requires share >= 0
    ensures var ops := [OpAccount("acct_1"), OpCreateIntent(Asking(manual, share), "pi_1")];
            FreshRun(ops) && Run(ops) ==
                OneAccount.(intents := map["pi_1" := Asked(manual, share, RequiresConfirmation)])
  {
    var join, create := OpAccount("acct_1"), OpCreateIntent(Asking(manual, share), "pi_1");
    RunSnoc([], join);
    assert [] + [join] == [join] && [join] + [create] == [join, create];
    assert Run([join]) == OneAccount;
    RunSnoc([join], create);
  }

  lemma NothingHeld(s: Store, acct: string, cur: string)
    requires s.charges == map[] && s.refunds == map[] && s.transfers == map[] && s.disputes == map[] &&
             s.payouts == map[]
    ensures Balance(s, acct, cur) == 0
  {
    BalanceByParts(s, acct, cur);
  }

  /** The charge, the transfer and what is left on them. */
  ghost predicate Overdrawn(s: Store, captured: int, sent: int, platform: int) {
    && "ch_1" in s.charges && s.charges["ch_1"].captured == captured
    && "tr_1" in s.transfers && s.transfers["tr_1"].amount == sent
    && ChargeAvailable(s, "ch_1") == captured - sent < 0 && Balance(s, "", "usd") == platform < 0
  }

  lemma CompleteOverdraws(s: Store)
    requires Invariant(s) && s == OneAccount.(intents := map["pi_1" := Asked(false, 5000, RequiresConfirmation)])
    ensures var r := CompleteIntent(s, "pi_1", "succeed", "ch_1", "tr_1", 0);
            r.Done? && Overdrawn(r.store, 1000, 5000, -4059)
  {
    NothingHeld(s, "", "usd");
    ShareWithinAmount(s, "pi_1", "ch_1", "tr_1", 0);
  }

  /** An intent of 1000 that asks for a transfer of 5000 gets one: the charge is overdrawn by 4000
      and the platform by 4059. */
  lemma TransferExceedsCharge()
    ensures FreshRun(OversizedShare()) && Overdrawn(Run(OversizedShare()), 1000, 5000, -4059)
  {
    var ops := [OpAccount("acct_1"), OpCreateIntent(Asking(false, 5000), "pi_1")];
    var last := OpComplete("pi_1", "succeed", "ch_1", "tr_1", 0);
    AskedRun(false, 5000);
    assert OversizedShare() == ops + [last];
    CompletedRun(ops, Run(ops), last);
  }

  lemma CompletedRun(ops: seq<Op>, s: Store, last: Op)
    requires FreshRun(ops) && Run(ops) == s
    requires s == OneAccount.(intents := map["pi_1" := Asked(false, 5000, RequiresConfirmation)])
    requires last == OpComplete("pi_1", "succeed", "ch_1", "tr_1", 0)
    ensures FreshRun(ops + [last]) && Overdrawn(Run(ops + [last]), 1000, 5000, -4059)
  {
    RunSnoc(ops, last);
    RunsKeepInvariant(ops);
    CompleteOverdraws(s);
  }

  lemma ConfirmedRun()
    ensures var ops := PartialCapture()[..3];
            FreshRun(ops) && Run(ops) == OneAccount.(intents := map["pi_1" := Asked(true, 500, RequiresCapture)])
  {
    var ops := PartialCapture()[..2];
    AskedRun(true, 500);
    assert ops == [OpAccount("acct_1"), OpCreateIntent(Asking(true, 500), "pi_1")];
    assert PartialCapture()[..3] == ops + [PartialCapture()[2]];
    RunSnoc(ops, PartialCapture()[2]);
  }

  lemma CaptureOverdraws(s: Store)
    requires Invariant(s) && s == OneAccount.(intents := map["pi_1" := Asked(true, 500, RequiresCapture)])
    ensures var r := CaptureIntent(s, "pi_1", Number(100), "ch_1", "tr_1", 0);
            r.Done? && Overdrawn(r.store, 100, 500, -433)
  {
    NothingHeld(s, "", "usd");
    ShareWithinCapture(s, "pi_1", Number(100), "ch_1", "tr_1", 0);
  }

  /** An amount that fits the intent need not fit what is captured of it: of 100 captured 500 are
      sent on, and the platform is 433 short. */
  lemma TransferExceedsCapture()
    ensures FreshRun(PartialCapture()) && Overdrawn(Run(PartialCapture()), 100, 500, -433)
  {
    var ops, last := PartialCapture()[..3], PartialCapture()[3];
    ConfirmedRun();
    assert PartialCapture() == ops + [last];
    CapturedRun(ops, Run(ops), last);
  }

  lemma CapturedRun(ops: seq<Op>, s: Store, last: Op)
    requires FreshRun(ops) && Run(ops) == s == OneAccount.(intents := map["pi_1" := Asked(true, 500, RequiresCapture)])
    requires last == OpCapture("pi_1", Number(100), "ch_1", "tr_1", 0)
    ensures FreshRun(ops + [last]) && Overdrawn(Run(ops + [last]), 100, 500, -433)
  {
    RunSnoc(ops, last);
    RunsKeepInvariant(ops);
    CaptureOverdraws(s);
  }

  // ---------- two promotion codes with one text at work ----------

  function SaveCode(): CodeParams { CodeParams("SAVE", "c", true, Number(0), Number(0)) }

  function Save(active: bool): PromotionCode { PromotionCode("SAVE", "c", active, 0, 0, 0) }

  function CodeBack(): seq<Op> {
    [OpCoupon(CouponParams(Some(10.0), Number(0), "", Number(0), Number(0)), "c"), OpCode(SaveCode(), "p1"),
     OpSetCodeActive("p1", false), OpCode(SaveCode(), "p2"), OpSetCodeActive("p1", true)]
  }

  function WithCodes(codes: map<string, PromotionCode>): Store {
    EmptyStore.(coupons := map["c" := Coupon(10.0, 0, "", 0, 0, 0)], codes := codes)
  }

  lemma CodeStep(codes: map<string, PromotionCode>, id: string)
    requires forall k :: k in codes ==> !codes[k].active
    ensures CreateCode(WithCodes(codes), SaveCode(), id) == Done(WithCodes(codes[id := Save(true)]))
  {
    var s := WithCodes(codes);
    forall k ensures !(Matches(s, "SAVE", k) && s.codes[k].active) {
    }
  }

  lemma CodeOnce()
    ensures var ops := [CodeBack()[0], CodeBack()[1]];
            FreshRun(ops) && Run(ops) == WithCodes(map["p1" := Save(true)])
  {
    var first, second := CodeBack()[0], CodeBack()[1];
    RunSnoc([], first);
    assert [] + [first] == [first] && [first] + [second] == [first, second];
    assert Step(EmptyStore, first) == WithCodes(map[]);
    RunSnoc([first], second);
    CodeStep(map[], "p1");
  }

  lemma CodeOff()
    ensures var ops := [CodeBack()[0], CodeBack()[1], CodeBack()[2]];
            FreshRun(ops) && Run(ops) == WithCodes(map["p1" := Save(false)])
  {
    var ops, third := [CodeBack()[0], CodeBack()[1]], CodeBack()[2];
    CodeOnce();
    RunSnoc(ops, third);
    assert ops + [third] == [CodeBack()[0], CodeBack()[1], third];
    assert WithCodes(map["p1" := Save(true)]).codes["p1" := Save(false)] == map["p1" := Save(false)];
  }

  lemma CodeRuns()
    ensures FreshRun(CodeBack()[..4])
    ensures Run(CodeBack()[..4]) == WithCodes(map["p1" := Save(false), "p2" := Save(true)])
  {
    var ops, fourth := [CodeBack()[0], CodeBack()[1], CodeBack()[2]], CodeBack()[3];
    CodeOff();
    RunSnoc(ops, fourth);
    assert CodeBack()[..4] == ops + [fourth];
    CodeStep(map["p1" := Save(false)], "p2");
  }

  /** A code is created, put out of work, created again, and the first one put back to work: two
      codes with one text work. */
  lemma TwoCodesOneText()
    ensures var s := Run(CodeBack());
            && FreshRun(CodeBack()) && s.codes == map["p1" := Save(true), "p2" := Save(true)] && !TextsUnique(s)
  {
    var before := CodeBack()[..4];
    CodeRuns();
    assert CodeBack() == before + [CodeBack()[4]];
    RunSnoc(before, CodeBack()[4]);
    var s := Run(CodeBack());
    assert s.codes["p1"].active && s.codes["p2"].active && EqualFold(s.codes["p1"].code, s.codes["p2"].code);
  }
}
