/**
 * Activation on a concrete DevicePolicyManager from before Android 14: no `wipeDevice`, one
 * unrelated method beside the enforced ones, and one overload whose hook throws.
 */
module Scenarios {
  import opened Wrappers
  import opened Signatures
  import opened Hookers
  import opened Installation

  const LockNow0 := Descriptor("lockNow", [], VoidKind)
  const WipeData1 := Descriptor("wipeData", [IntKind], VoidKind)
  const WipeData2 := Descriptor("wipeData", [IntKind, ObjectKind], VoidKind)
  const ResetPassword := Descriptor("resetPasswordWithToken", [ObjectKind, ObjectKind, ObjectKind, IntKind], BooleanKind)
  const IsAdminActive := Descriptor("isAdminActive", [ObjectKind], BooleanKind)

  const Catalog: seq<Descriptor> := [LockNow0, IsAdminActive, WipeData1, WipeData2, ResetPassword]

  /** Every attempt succeeds except on `wipeData(int)`, whose `hook` step throws. */
  function OneFails(d: Descriptor): (a: Attempt) {
    if d == WipeData1 then HookThrew else Hooked
  }

  /** The concrete catalog declares the enforced methods with the kinds the hookers expect. */
  lemma CatalogConforms()
    ensures Conforms(Catalog)
  {
    forall i, h: Hooker | 0 <= i < |Catalog| && Catalog[i].name == h.Op()
      ensures Catalog[i].ret == h.DeclaredReturn()
    {
    }
  }

  /** Resolution over the five-entry layout, one entry at a time. */
  lemma LayoutMatchesAt(lock: Descriptor, other: Descriptor, wipe1: Descriptor, wipe2: Descriptor, reset: Descriptor, name: string)
    ensures Matches([lock, other, wipe1, wipe2, reset], name)
      == Hit(lock, name) + (Hit(other, name) + (Hit(wipe1, name) + (Hit(wipe2, name) + Hit(reset, name))))
  {
    var c := [lock, other, wipe1, wipe2, reset];
    assert c[1..][1..][1..][1..][1..] == [];
    assert Matches(c[1..][1..][1..][1..], name) == Hit(reset, name);
    assert Matches(c[1..][1..][1..], name) == Hit(wipe2, name) + Hit(reset, name);
    assert Matches(c[1..][1..], name) == Hit(wipe1, name) + (Hit(wipe2, name) + Hit(reset, name));
    assert Matches(c[1..], name) == Hit(other, name) + (Hit(wipe1, name) + (Hit(wipe2, name) + Hit(reset, name)));
  }

  /** What resolution finds for each enforced name in a catalog laid out like the one below. */
  lemma LayoutMatches(lock: Descriptor, other: Descriptor, wipe1: Descriptor, wipe2: Descriptor, reset: Descriptor)
    requires lock.name == "lockNow" && other.name == "isAdminActive"
    requires wipe1.name == "wipeData" && wipe2.name == "wipeData" && reset.name == "resetPasswordWithToken"
    ensures Matches([lock, other, wipe1, wipe2, reset], "lockNow") == [lock]
    ensures Matches([lock, other, wipe1, wipe2, reset], "wipeData") == [wipe1] + [wipe2]
    ensures Matches([lock, other, wipe1, wipe2, reset], "resetPasswordWithToken") == [reset]
    ensures Matches([lock, other, wipe1, wipe2, reset], "wipeDevice") == []
  {
    LayoutMatchesAt(lock, other, wipe1, wipe2, reset, "lockNow");
    LayoutMatchesAt(lock, other, wipe1, wipe2, reset, "wipeData");
    LayoutMatchesAt(lock, other, wipe1, wipe2, reset, "resetPasswordWithToken");
    LayoutMatchesAt(lock, other, wipe1, wipe2, reset, "wipeDevice");
  }

  /** The contribution of one declared method to a resolution by `name`. */
  function Hit(d: Descriptor, name: string): (r: seq<Descriptor>)
    ensures r == Matches([d], name)
  {
    assert [d][1..] == [];
    if d.name == name then [d] else []
  }

  /** The pass over one overload. */
  lemma Single(d: Descriptor, hooker: Hooker, attempt: Descriptor -> Attempt)
    ensures Installed([d], hooker, attempt) == if attempt(d) == Hooked then [Hook(d, hooker)] else []
    ensures Deoptimized([d], attempt) == if attempt(d) != DeoptimizeThrew then [d] else []
  {
    assert [d][..0] == [];
  }

  /**
   * Any catalog laid out like the one above: a lockNow overload, an unrelated method, two
   * wipeData overloads of which the first fails to hook, a resetPasswordWithToken overload,
   * and no wipeDevice. On the target package the three overloads whose attempts succeed are
   * hooked, in the installer's order, and all four are deoptimized; the unrelated method is
   * left alone and the absent name is no error. On any other package nothing is hooked.
   */
  lemma ActivationWithOneFailure(lock: Descriptor, other: Descriptor, wipe1: Descriptor, wipe2: Descriptor,
                                 reset: Descriptor, attempt: Descriptor -> Attempt)
    requires lock.name == "lockNow" && other.name == "isAdminActive"
    requires wipe1.name == "wipeData" && wipe2.name == "wipeData" && reset.name == "resetPasswordWithToken"
    requires attempt(wipe1) == HookThrew
    requires attempt(lock) == Hooked && attempt(wipe2) == Hooked && attempt(reset) == Hooked
    ensures ActivationHooks(TargetPackage, Some([lock, other, wipe1, wipe2, reset]), attempt)
      == [Hook(lock, LockNowHooker), Hook(wipe2, WipeDataHooker), Hook(reset, ResetPasswordWithTokenHooker)]
    ensures ActivationDeopts(TargetPackage, Some([lock, other, wipe1, wipe2, reset]), attempt)
      == [lock, wipe1, wipe2, reset]
    ensures ActivationHooks("com.android.settings", Some([lock, other, wipe1, wipe2, reset]), attempt) == []
  {
    LayoutMatches(lock, other, wipe1, wipe2, reset);
    InstalledAppend([wipe1], [wipe2], WipeDataHooker, attempt);
    Single(lock, LockNowHooker, attempt);
    Single(wipe1, WipeDataHooker, attempt);
    Single(wipe2, WipeDataHooker, attempt);
    Single(reset, ResetPasswordWithTokenHooker, attempt);
  }

  /**
   * The concrete instance: three hooks, lockNow's, the second wipeData's and
   * resetPasswordWithToken's, each with a placeholder its overload can return.
   */
  lemma ConcreteActivation()
    ensures ActivationHooks(TargetPackage, Some(Catalog), OneFails)
      == [Hook(LockNow0, LockNowHooker), Hook(WipeData2, WipeDataHooker), Hook(ResetPassword, ResetPasswordWithTokenHooker)]
    ensures AllFit(ActivationHooks(TargetPackage, Some(Catalog), OneFails))
  {
    ActivationWithOneFailure(LockNow0, IsAdminActive, WipeData1, WipeData2, ResetPassword, OneFails);
    CatalogConforms();
    ActivationTyped(TargetPackage, Some(Catalog), OneFails);
  }
}
