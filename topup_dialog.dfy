/**
 * The top-up dialog: the amount and reason fields, the submit guard, the in-flight flag,
 * and what a submit does once the `onSubmit` promise settles. The dialog's `open` state
 * belongs to the page; `onOpenChange` writes the page's `dialogOpen`.
 */
module TopupDialog {
  import opened Wrappers
  import opened JsText
  import opened Api
  import opened IndexPage

  /** The reason sent when the admin leaves the reason field empty. */
  const DefaultReason: string := "เติมโทเค่นโดยแอดมิน"

  /** The preset amounts offered under the amount field. */
  const QuickAmounts: seq<int> := [50, 100, 500, 1000]

  /** `parseInt(amount) < 1`: a JavaScript comparison with NaN is false. */
  predicate BelowOne(parsed: Option<int>)
  {
    parsed.Some? && parsed.value < 1
  }

  /** The submit guard passes: there is a user, the amount is non-empty, and it does not parse below 1. */
  predicate Accepts(user: Option<User>, amount: string)
    ensures Accepts(user, amount) ==> user.Some? && amount != ""
    ensures Accepts(user, amount) && ParseInt(amount).Some? ==> ParseInt(amount).value >= 1
  {
    user.Some? && amount != "" && !BelowOne(ParseInt(amount))
  }

  /** The submit button's `disabled` expression. */
  predicate SubmitDisabled(loading: bool, amount: string)
    ensures loading ==> SubmitDisabled(loading, amount)
    ensures forall u :: !SubmitDisabled(loading, amount) ==> Accepts(Some(u), amount)
  {
    loading || amount == "" || BelowOne(ParseInt(amount))
  }

  /** `reason || DefaultReason` */
  function ReasonToSend(reason: string): (r: string)
    ensures r != ""
    ensures reason != "" ==> r == reason
    ensures reason == "" ==> r == DefaultReason
  {
    if reason != "" then reason else DefaultReason
  }

  /** While no submit is in flight and a user is shown, the button is enabled exactly when the guard passes. */
  lemma EnabledIffAccepted(user: Option<User>, amount: string)
    requires user.Some?
    ensures !SubmitDisabled(false, amount) <==> Accepts(user, amount)
  {
  }

  /** An amount that parses to NaN is not rejected: `NaN < 1` is false. */
  lemma NaNAmountPassesGuard(u: User, amount: string)
    requires amount != "" && ParseInt(amount) == None
    ensures Accepts(Some(u), amount)
  {
  }

  /** The amounts "" and "0" never reach `onSubmit`. */
  lemma EmptyOrZeroRejected(user: Option<User>)
    ensures !Accepts(user, "")
    ensures !Accepts(user, "0")
  {
    ParseIntOfDecimal(0);
    assert Decimal(0) == "0";
  }

  /** Every preset writes an amount that parses back to itself and passes the guard. */
  lemma QuickAmountsPassGuard(u: User)
    ensures forall q :: q in QuickAmounts ==> ParseInt(Decimal(q)) == Some(q) && Accepts(Some(u), Decimal(q))
  {
    forall q | q in QuickAmounts
      ensures ParseInt(Decimal(q)) == Some(q) && Accepts(Some(u), Decimal(q))
    {
      ParseIntOfDecimal(q);
    }
  }

  class Dialog {
    /** The page that renders the dialog and supplies `user`, `open` and `onOpenChange`. */
    const host: Page
    var amount: string
    var reason: string
    var loading: bool

    constructor (host: Page)
      ensures this.host == host
      ensures amount == "" && reason == "" && !loading
    {
      this.host := host;
      amount := "";
      reason := "";
      loading := false;
    }

    /** Whether the submit button is disabled in the current state. */
    function Disabled(): (d: bool)
      reads this, host
      ensures loading ==> d
      ensures !loading && host.topupUser.Some? ==> (d <==> !Accepts(host.topupUser, amount))
    {
      SubmitDisabled(loading, amount)
    }

    /** The amount field's `onChange`. */
    method SetAmount(text: string)
      modifies this`amount
      ensures amount == text
    {
      amount := text;
    }

    /** The reason field's `onChange`. */
    method SetReason(text: string)
      modifies this`reason
      ensures reason == text
    {
      reason := text;
    }

    /** A preset button: the amount becomes `String(q)`. */
    method PickQuickAmount(q: int)
      modifies this`amount
      ensures amount == Decimal(q)
      ensures ParseInt(amount) == Some(q)
    {
      amount := Decimal(q);
      ParseIntOfDecimal(q);
    }

    /** The cancel button: `onOpenChange(false)`, with the fields left as they are. */
    method Cancel()
      modifies host`dialogOpen
      ensures !host.dialogOpen
    {
      host.SetDialogOpen(false);
    }

    /**
     * `handleSubmit` up to its `await`: when the guard rejects, nothing changes and no call
     * is made; otherwise the dialog is marked in flight and `onSubmit` is called with the
     * user's id, `parseInt(amount)` and the defaulted reason.
     */
    method HandleSubmit() returns (call: Option<TopupCall>)
      modifies this`loading
      ensures call.Some? <==> Accepts(host.topupUser, amount)
      ensures call.None? ==> loading == old(loading)
      ensures call.Some? ==> loading
      ensures call.Some? ==>
        call.value == TopupCall(host.topupUser.value.userId, ParseInt(amount), ReasonToSend(reason))
    {
      if !Accepts(host.topupUser, amount) {
        return None;
      }
      loading := true;
      call := Some(TopupCall(host.topupUser.value.userId, ParseInt(amount), ReasonToSend(reason)));
    }

    /**
     * `handleSubmit` after its `await`: a resolved call clears both fields and closes the
     * dialog; a rejected one leaves them and the open state alone; the in-flight flag is
     * reset in both cases.
     */
    method OnSubmitSettled(outcome: Settlement)
      modifies this`amount, this`reason, this`loading, host`dialogOpen
      ensures !loading
      ensures outcome.Resolved? ==> amount == "" && reason == "" && !host.dialogOpen
      ensures outcome.Rejected? ==>
        amount == old(amount) && reason == old(reason) && host.dialogOpen == old(host.dialogOpen)
    {
      if outcome.Resolved? {
        amount := "";
        reason := "";
        host.SetDialogOpen(false);
      }
      loading := false;
    }
  }

  /**
   * A submit wired to the page's `handleTopup`, which never rejects: every submit that
   * passes the guard ends with the fields cleared and the dialog closed, whatever the
   * reply, while the list is reloaded only after a successful reply.
   */
  method SubmitThroughPage(d: Dialog, reply: TopupReply, reload: FetchResult)
    returns (call: Option<TopupCall>, reloaded: bool)
    modifies d`amount, d`reason, d`loading, d.host`dialogOpen, d.host`users, d.host`loading
    ensures call.Some? <==> old(Accepts(d.host.topupUser, d.amount))
    ensures call.Some? ==>
      call.value == old(TopupCall(d.host.topupUser.value.userId, ParseInt(d.amount), ReasonToSend(d.reason)))
    ensures call.None? ==> !reloaded && unchanged(d, d.host)
    ensures call.Some? ==> d.amount == "" && d.reason == "" && !d.loading && !d.host.dialogOpen
    ensures reloaded <==> call.Some? && reply.Replied? && reply.success
    ensures reloaded && reload.Fetched? ==> d.host.users == reload.users.GetOr([])
    ensures !(reloaded && reload.Fetched?) ==> d.host.users == old(d.host.users)
    ensures reloaded ==> !d.host.loading
    ensures !reloaded ==> d.host.loading == old(d.host.loading)
  {
    reloaded := false;
    call := d.HandleSubmit();
    if call.Some? {
      var sent, settled;
      sent, reloaded, settled := d.host.HandleTopup(call.value, reply, reload);
      d.OnSubmitSettled(settled);
    }
  }
}
