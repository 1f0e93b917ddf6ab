/**
 * The four hooker classes. Each before-phase passes a fixed operation name, placeholder
 * result and notification offset to `notifyAndSkip`; each after-phase only logs.
 */
module Hookers {
  import opened Signatures
  import opened Policy

  datatype Hooker = LockNowHooker | WipeDataHooker | WipeDeviceHooker | ResetPasswordWithTokenHooker
  {
    /** The operation name the before-phase reports: always one the policy table has an entry for. */
    function Op(): (name: string)
      ensures Registered(name)
    {
      match this
      case LockNowHooker => "lockNow"
      case WipeDataHooker => "wipeData"
      case WipeDeviceHooker => "wipeDevice"
      case ResetPasswordWithTokenHooker => "resetPasswordWithToken"
    }

    /**
     * The placeholder handed to `returnAndSkip`: `null` for the void operations, `false` for
     * the boolean one; either way a legal result of the operation.
     */
    function SkipReturn(): (v: Value)
      ensures Fits(v, DeclaredReturn())
    {
      match this
      case ResetPasswordWithTokenHooker => Bool(false)
      case _ => Null
    }

    /** The offset added to the notification id base: one of 0 to 3. */
    function IdOffset(): (offset: int)
      ensures 0 <= offset <= 3 && IsInt32(offset)
    {
      match this
      case LockNowHooker => 0
      case WipeDataHooker => 1
      case WipeDeviceHooker => 2
      case ResetPasswordWithTokenHooker => 3
    }

    /** The return kind DevicePolicyManager declares for every overload of `Op()`. */
    function DeclaredReturn(): (k: Kind) {
      match this
      case ResetPasswordWithTokenHooker => BooleanKind
      case _ => VoidKind
    }
  }

  /** Each hooker dispatches a name of its own that the policy table has a notice for. */
  lemma {:induction false} OpsRegisteredAndDistinct(h: Hooker, g: Hooker)
    ensures PolicyFor(h.Op()).title != DefaultTitle
    ensures h.Op() == g.Op() ==> h == g
  {
  }

  /** The four hookers post under four different notification ids, 1234 to 1237. */
  lemma {:induction false} NotificationIdsDistinct(h: Hooker, g: Hooker)
    ensures NotificationId(h.IdOffset()) == NotifIdBase + h.IdOffset()
    ensures NotifIdBase <= NotificationId(h.IdOffset()) <= NotifIdBase + 3
    ensures h != g ==> NotificationId(h.IdOffset()) != NotificationId(g.IdOffset())
  {
  }
}
