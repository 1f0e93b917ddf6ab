/**
 * The static policy table of `notifyAndSkip`: which title and message the operator sees for an
 * intercepted operation, and which notification id is used.
 */
module Policy {

  /** The Kotlin `Int` range; `NOTIF_ID_BASE + idOffset` is an `Int` addition. */
  const Int32Min: int := -0x8000_0000
  const Int32Max: int := 0x7fff_ffff
  const Int32Modulus: int := 0x1_0000_0000

  const NotifIdBase: int := 1234

  const DefaultTitle: string := "Action blocked"
  const DefaultPrefix: string := "Administrator is trying to perform: "

  datatype Notice = Notice(title: string, message: string)

  predicate IsInt32(x: int) {
    Int32Min <= x <= Int32Max
  }

  /** Two's-complement wrap-around of an integer into the `Int` range. */
  function WrapInt32(x: int): (r: int)
    ensures IsInt32(r)
    ensures IsInt32(x) ==> r == x
    ensures (x - r) % Int32Modulus == 0
  {
    var k := (x - Int32Min) % Int32Modulus;
    assert x - (k + Int32Min) == Int32Modulus * ((x - Int32Min) / Int32Modulus);
    k + Int32Min
  }

  /** The id a notification is posted under: `NOTIF_ID_BASE + idOffset` in 32-bit arithmetic. */
  function NotificationId(idOffset: int): (id: int)
    requires IsInt32(idOffset)
    ensures IsInt32(id)
    ensures idOffset <= Int32Max - NotifIdBase ==> id == NotifIdBase + idOffset
    ensures (NotifIdBase + idOffset - id) % Int32Modulus == 0
  {
    WrapInt32(NotifIdBase + idOffset)
  }

  /** At the top of the range the addition wraps around to the bottom. */
  lemma NotificationIdWraps()
    ensures NotificationId(Int32Max) == Int32Min + NotifIdBase - 1
  {
  }

  /** Two integers congruent modulo 2^32 and closer than 2^32 are equal. */
  lemma {:induction false} CongruentAndClose(x: int, y: int)
    requires (x - y) % Int32Modulus == 0
    requires -Int32Modulus < x - y < Int32Modulus
    ensures x == y
  {
    var q := (x - y) / Int32Modulus;
    assert x - y == Int32Modulus * q;
  }

  /** Distinct offsets give distinct ids, even where the addition wraps around. */
  lemma {:induction false} NotificationIdInjective(a: int, b: int)
    requires IsInt32(a) && IsInt32(b)
    requires NotificationId(a) == NotificationId(b)
    ensures a == b
  {
    var x, y := NotifIdBase + a, NotifIdBase + b;
    var r := NotificationId(a);
    assert (x - r) % Int32Modulus == 0 && (y - r) % Int32Modulus == 0;
    assert (x - y) % Int32Modulus == 0 by {
      var qx, qy := (x - r) / Int32Modulus, (y - r) / Int32Modulus;
      assert x - y == Int32Modulus * (qx - qy);
    }
    CongruentAndClose(x, y);
  }

  /** The operation names the table has an entry of its own for. */
  predicate Registered(op: string) {
    op == "lockNow" || op == "wipeData" || op == "wipeDevice" || op == "resetPasswordWithToken"
  }

  /** `part` occurs in `s` as a contiguous substring. */
  predicate Contains(s: string, part: string) {
    exists i, j :: 0 <= i <= j <= |s| && s[i..j] == part
  }

  /**
   * The `when (op)` table: a registered operation gets its own notice; any other name falls
   * through to the catch-all notice, whose message names the operation.
   */
  function PolicyFor(op: string): (n: Notice)
    ensures Registered(op) <==> n.title != DefaultTitle
    ensures !Registered(op) ==> Contains(n.message, op)
  {
    if op == "lockNow" then
      Notice("Lock prevented", "Administrator is trying to lock your device.")
    else if op == "wipeData" || op == "wipeDevice" then
      Notice("Wipe prevented", "Administrator is trying to wipe/reset your device.")
    else if op == "resetPasswordWithToken" then
      Notice("Password reset blocked", "Administrator is trying to reset your password.")
    else
      var m := DefaultPrefix + op;
      assert m[|DefaultPrefix|..|m|] == op;
      Notice(DefaultTitle, m)
  }

  /**
   * The registered entries: the two wipe operations share one notice, and lock, wipe and
   * password reset give three different notices.
   */
  lemma TableEntries()
    ensures PolicyFor("lockNow").title == "Lock prevented"
    ensures PolicyFor("wipeData") == PolicyFor("wipeDevice")
    ensures PolicyFor("wipeData").title == "Wipe prevented"
    ensures PolicyFor("resetPasswordWithToken").title == "Password reset blocked"
    ensures PolicyFor("lockNow") != PolicyFor("wipeData")
    ensures PolicyFor("lockNow") != PolicyFor("resetPasswordWithToken")
    ensures PolicyFor("wipeData") != PolicyFor("resetPasswordWithToken")
  {
  }

  /** Unregistered names all get the same title but their messages tell them apart. */
  lemma {:induction false} DefaultMessagesDistinguishNames(a: string, b: string)
    requires !Registered(a) && !Registered(b)
    requires PolicyFor(a) == PolicyFor(b)
    ensures a == b
  {
    assert PolicyFor(a).message == DefaultPrefix + a;
    assert PolicyFor(b).message == DefaultPrefix + b;
    assert a == (DefaultPrefix + a)[|DefaultPrefix|..];
    assert b == (DefaultPrefix + b)[|DefaultPrefix|..];
  }
}
