/**
 * The before/after interception protocol for one call of a hooked DevicePolicyManager method:
 * `notifyAndSkip`, its best-effort notification, and the callback's result slot and skip flag.
 */
module Interception {
  import opened Wrappers
  import opened Signatures
  import opened Policy
  import opened Hookers

  /** An application context, as far as the engine cares: an opaque handle. */
  datatype AppContext = AppContext(handle: nat)

  /**
   * How an attempt to post through a found context ends: the notification is delivered, an
   * `Exception` is thrown on the way (service lookup, `ensureChannel`, the builder, `notify`),
   * or a throwable that is not an `Exception` is thrown there, such as a `LinkageError` from a
   * missing `NotificationCompat`.
   */
  datatype Delivery = Delivers | ThrowsException | ThrowsError

  /**
   * What the platform does when a notification is attempted: whether an application context
   * could be found, and how posting through it ends.
   */
  datatype Platform = Platform(context: Option<AppContext>, delivery: Delivery)

  /** A notification as handed to the notification manager. */
  datatype Notification = Notification(title: string, text: string, id: int)

  /** How a `postNotification` call ends: posted, dropped quietly, or with a throwable escaping. */
  datatype PostOutcome = Posted(n: Notification) | Dropped | Escaped

  /**
   * `postNotification` as written: with no application context it returns early, and its
   * `catch` takes only `Exception`, so any other throwable escapes to the caller.
   */
  function PostNotificationAsWritten(title: string, text: string, idOffset: int, platform: Platform): (out: PostOutcome)
    requires IsInt32(idOffset)
    ensures out.Escaped? <==> platform.context.Some? && platform.delivery == ThrowsError
    ensures out.Posted? <==> platform.context.Some? && platform.delivery == Delivers
    ensures out.Posted? ==> out.n == Notification(title, text, NotificationId(idOffset))
  {
    match platform.context
    case None => Dropped
    case Some(_) =>
      match platform.delivery
      case Delivers => Posted(Notification(title, text, NotificationId(idOffset)))
      case ThrowsException => Dropped
      case ThrowsError => Escaped
  }

  /**
   * `postNotification` with its `catch` widened to every throwable, as at the engine's other
   * boundaries: nothing escapes, and a notification is posted exactly when a context is found
   * and delivery succeeds.
   */
  function PostNotification(title: string, text: string, idOffset: int, platform: Platform): (posted: Option<Notification>)
    requires IsInt32(idOffset)
    ensures posted.Some? <==> platform.context.Some? && platform.delivery == Delivers
    ensures posted.Some? ==> posted.value == Notification(title, text, NotificationId(idOffset))
  {
    match platform.context
    case None => None
    case Some(_) =>
      if platform.delivery == Delivers then Some(Notification(title, text, NotificationId(idOffset))) else None
  }

  /** A corrected posting result read as an outcome of the code as written. */
  function Widened(posted: Option<Notification>): (out: PostOutcome)
    ensures !out.Escaped?
    ensures out.Posted? <==> posted.Some?
  {
    match posted
    case Some(n) => Posted(n)
    case None => Dropped
  }

  /**
   * The widened catch changes one case only: where the code as written lets a non-`Exception`
   * throwable escape, the corrected one drops the notification; everywhere else both agree.
   */
  lemma CatchWideningAgrees(title: string, text: string, idOffset: int, platform: Platform)
    requires IsInt32(idOffset)
    ensures PostNotificationAsWritten(title, text, idOffset, platform).Escaped?
      ==> PostNotification(title, text, idOffset, platform) == None
    ensures !PostNotificationAsWritten(title, text, idOffset, platform).Escaped?
      ==> PostNotificationAsWritten(title, text, idOffset, platform) == Widened(PostNotification(title, text, idOffset, platform))
  {
  }

  /** Where one intercepted call stands. */
  datatype Phase = Pending | Decided | Completed

  /**
   * The per-call callback the framework hands to a hooker: the overload being called, its
   * arguments, the result slot and the skip flag.
   */
  class Callback {
    const target: Descriptor
    const args: seq<Value>
    var phase: Phase
    var result: Value
    var skipped: bool

    constructor (target: Descriptor, args: seq<Value>)
      ensures this.target == target && this.args == args
      ensures phase == Pending && result == Null && !skipped
    {
      this.target := target;
      this.args := args;
      phase := Pending;
      result := Null;
      skipped := false;
    }

    /** `returnAndSkip`: fill the result slot and tell the framework not to run the real body. */
    method ReturnAndSkip(v: Value)
      requires phase == Pending
      modifies this
      ensures phase == Decided && result == v && skipped
    {
      result := v;
      skipped := true;
      phase := Decided;
    }

    /**
     * The framework's step between the two phases: the real body runs, and its result `v`
     * lands in the slot, only when the before-phase did not ask to skip it.
     */
    method Proceed(v: Value) returns (bodyRan: bool)
      requires (phase == Pending && !skipped) || (phase == Decided && skipped)
      modifies this
      ensures bodyRan == !old(skipped)
      ensures phase == Decided && skipped == old(skipped)
      ensures result == if old(skipped) then old(result) else v
    {
      bodyRan := !skipped;
      if bodyRan {
        result := v;
        phase := Decided;
      }
    }

    /** The framework ends the call once the after-phase has run. */
    method Complete()
      requires phase == Decided
      modifies this
      ensures phase == Completed && result == old(result) && skipped == old(skipped)
    {
      phase := Completed;
    }
  }

  /**
   * `notifyAndSkip` as written: look the operation up in the policy table and try to post the
   * notice; when a throwable escapes the posting, `returnAndSkip` is never reached and the call
   * is left undecided.
   */
  method NotifyAndSkipAsWritten(cb: Callback, op: string, skipReturn: Value, idOffset: int, platform: Platform)
    returns (out: PostOutcome)
    requires IsInt32(idOffset)
    requires cb.phase == Pending && !cb.skipped
    modifies cb
    ensures out == PostNotificationAsWritten(PolicyFor(op).title, PolicyFor(op).message, idOffset, platform)
    ensures out.Escaped? ==> cb.phase == Pending && !cb.skipped && cb.result == old(cb.result)
    ensures !out.Escaped? ==> cb.phase == Decided && cb.result == skipReturn && cb.skipped
  {
    var notice := PolicyFor(op);
    out := PostNotificationAsWritten(notice.title, notice.message, idOffset, platform);
    if out.Escaped? {
      return;
    }
    cb.ReturnAndSkip(skipReturn);
  }

  /**
   * `notifyAndSkip` over the widened catch: look the operation up in the policy table, try to
   * post the notice, then skip the call with `skipReturn` whatever became of the notification.
   */
  method NotifyAndSkip(cb: Callback, op: string, skipReturn: Value, idOffset: int, platform: Platform)
    returns (posted: Option<Notification>)
    requires IsInt32(idOffset)
    requires cb.phase == Pending
    modifies cb
    ensures cb.phase == Decided && cb.result == skipReturn && cb.skipped
    ensures posted == PostNotification(PolicyFor(op).title, PolicyFor(op).message, idOffset, platform)
  {
    var notice := PolicyFor(op);
    posted := PostNotification(notice.title, notice.message, idOffset, platform);
    cb.ReturnAndSkip(skipReturn);
  }

  /** A hooker's before-phase: its fixed name, placeholder and offset passed to `NotifyAndSkip`. */
  method Before(h: Hooker, cb: Callback, platform: Platform) returns (posted: Option<Notification>)
    requires cb.phase == Pending
    modifies cb
    ensures cb.phase == Decided && cb.result == h.SkipReturn() && cb.skipped
    ensures posted == PostNotification(PolicyFor(h.Op()).title, PolicyFor(h.Op()).message, h.IdOffset(), platform)
  {
    posted := NotifyAndSkip(cb, h.Op(), h.SkipReturn(), h.IdOffset(), platform);
  }

  /** A hooker's after-phase: it only logs, so the call's result slot and skip flag stay as they are. */
  method After(h: Hooker, cb: Callback)
    requires cb.phase == Decided
    ensures unchanged(cb)
  {
  }

  /**
   * One call of an overload hooked with `h`, as the framework runs it: a fresh callback, the
   * before-phase, the real body only if the before-phase did not skip it, the after-phase.
   * `body` is what the real method would return and `args` what the caller passed.
   * The real body never runs, the caller gets the placeholder whatever the arguments and
   * whatever became of the notification, and the placeholder has the overload's return kind.
   */
  method Invoke(h: Hooker, target: Descriptor, args: seq<Value>, body: Value, platform: Platform)
    returns (result: Value, bodyRan: bool, posted: Option<Notification>)
    ensures !bodyRan
    ensures result == h.SkipReturn()
    ensures target.ret == h.DeclaredReturn() ==> Fits(result, target.ret)
    ensures posted.Some? <==> platform.context.Some? && platform.delivery == Delivers
    ensures posted.Some? ==> posted.value == Notification(PolicyFor(h.Op()).title, PolicyFor(h.Op()).message, NotifIdBase + h.IdOffset())
  {
    var cb := new Callback(target, args);
    posted := Before(h, cb, platform);
    bodyRan := cb.Proceed(body);
    After(h, cb);
    cb.Complete();
    result := cb.result;
    NotificationIdsDistinct(h, h);
  }

  /**
   * One call under the code as written. A before-phase that throws has not asked to skip, so
   * the framework goes on to run the real body: exactly when a non-`Exception` throwable
   * escapes the posting, the real method runs and its own result reaches the caller.
   */
  method InvokeAsWritten(h: Hooker, target: Descriptor, args: seq<Value>, body: Value, platform: Platform)
    returns (result: Value, bodyRan: bool, out: PostOutcome)
    ensures bodyRan <==> platform.context.Some? && platform.delivery == ThrowsError
    ensures result == if bodyRan then body else h.SkipReturn()
    ensures out == PostNotificationAsWritten(PolicyFor(h.Op()).title, PolicyFor(h.Op()).message, h.IdOffset(), platform)
  {
    var cb := new Callback(target, args);
    out := NotifyAndSkipAsWritten(cb, h.Op(), h.SkipReturn(), h.IdOffset(), platform);
    bodyRan := cb.Proceed(body);
    After(h, cb);
    cb.Complete();
    result := cb.result;
  }

  /**
   * The discrepancy on a concrete call: a `wipeData(int)` call while posting raises an `Error`
   * runs the real wipe, which the widened catch prevents.
   */
  method ErrorLetsWipeRun() returns (ranAsWritten: bool, ranCorrected: bool)
    ensures ranAsWritten && !ranCorrected
  {
    var wipe := Descriptor("wipeData", [IntKind], VoidKind);
    var platform := Platform(Some(AppContext(0)), ThrowsError);
    var r1, p1;
    r1, ranAsWritten, p1 := InvokeAsWritten(WipeDataHooker, wipe, [Int(0)], Null, platform);
    var r2, p2;
    r2, ranCorrected, p2 := Invoke(WipeDataHooker, wipe, [Int(0)], Null, platform);
  }
}
