/**
 * Hook installation: overload resolution by exact name over DevicePolicyManager's declared
 * methods (`hookAllByName`), per-overload deoptimize-then-hook with independent failure, and
 * the package gate that runs the installer for the four enforced names (`onPackageLoaded`).
 */
module Installation {
  import opened Wrappers
  import opened Signatures
  import opened Hookers
  import opened Interception

  /** The one package whose loading activates the engine. */
  const TargetPackage: string := "com.google.android.apps.work.clouddpc"

  /**
   * What happens when the engine tries one overload: both steps succeed, `deoptimize` throws
   * (so `hook` is never reached), or `deoptimize` succeeds and `hook` throws.
   */
  datatype Attempt = Hooked | DeoptimizeThrew | HookThrew

  /** An installed interceptor: the overload and the hooker class bound to it. */
  datatype Hook = Hook(target: Descriptor, hooker: Hooker)

  /**
   * Overload resolution: the declared methods whose name equals `name` exactly, in catalog
   * order. Parameter and return kinds play no part in it.
   */
  function Matches(catalog: seq<Descriptor>, name: string): (r: seq<Descriptor>)
    ensures |r| <= |catalog|
  {
    if catalog == [] then []
    else
      var rest := Matches(catalog[1..], name);
      assert catalog == [catalog[0]] + catalog[1..];
      if catalog[0].name == name then [catalog[0]] + rest else rest
  }

  /** The resolved overloads are the catalog entries with that name and no others. */
  lemma {:induction false} MatchesMembers(catalog: seq<Descriptor>, name: string)
    ensures forall d :: d in Matches(catalog, name) <==> d in catalog && d.name == name
  {
    if catalog != [] {
      assert catalog == [catalog[0]] + catalog[1..];
      MatchesMembers(catalog[1..], name);
    }
  }

  /** Each entry with the name is resolved exactly as often as it is declared, any other never. */
  lemma {:induction false} MatchesExact(catalog: seq<Descriptor>, name: string, d: Descriptor)
    ensures multiset(Matches(catalog, name))[d] == if d.name == name then multiset(catalog)[d] else 0
  {
    if catalog != [] {
      assert catalog == [catalog[0]] + catalog[1..];
      MatchesExact(catalog[1..], name, d);
    }
  }

  /** The hooks one pass of the installer over `matches` adds, in the order of the matches. */
  function Installed(matches: seq<Descriptor>, hooker: Hooker, attempt: Descriptor -> Attempt): (hooks: seq<Hook>)
    ensures |hooks| <= |matches|
  {
    if matches == [] then []
    else
      var last := matches[|matches| - 1];
      Installed(matches[..|matches| - 1], hooker, attempt)
        + (if attempt(last) == Hooked then [Hook(last, hooker)] else [])
  }

  /** The overloads one pass leaves deoptimized: those whose `deoptimize` step did not throw. */
  function Deoptimized(matches: seq<Descriptor>, attempt: Descriptor -> Attempt): (ds: seq<Descriptor>)
    ensures |ds| <= |matches|
  {
    if matches == [] then []
    else
      var last := matches[|matches| - 1];
      Deoptimized(matches[..|matches| - 1], attempt)
        + (if attempt(last) != DeoptimizeThrew then [last] else [])
  }

  /** Every hook a pass installs binds its hooker to one of the matches whose attempt succeeded. */
  lemma {:induction false} InstalledSound(matches: seq<Descriptor>, hooker: Hooker, attempt: Descriptor -> Attempt)
    ensures forall k :: 0 <= k < |Installed(matches, hooker, attempt)| ==>
      Installed(matches, hooker, attempt)[k].hooker == hooker
      && Installed(matches, hooker, attempt)[k].target in matches
      && attempt(Installed(matches, hooker, attempt)[k].target) == Hooked
  {
    if matches != [] {
      var n := |matches| - 1;
      InstalledSound(matches[..n], hooker, attempt);
      assert forall d :: d in matches[..n] ==> d in matches;
    }
  }

  /** A pass deoptimizes only matches, and only those whose `deoptimize` step did not throw. */
  lemma {:induction false} DeoptimizedSound(matches: seq<Descriptor>, attempt: Descriptor -> Attempt)
    ensures forall d :: d in Deoptimized(matches, attempt) ==> d in matches && attempt(d) != DeoptimizeThrew
  {
    if matches != [] {
      var n := |matches| - 1;
      DeoptimizedSound(matches[..n], attempt);
      assert forall d :: d in matches[..n] ==> d in matches;
    }
  }

  /** One more match extends the installed hooks and the deoptimized overloads by its own outcome only. */
  lemma Step(matches: seq<Descriptor>, i: nat, hooker: Hooker, attempt: Descriptor -> Attempt)
    requires i < |matches|
    ensures Installed(matches[..i + 1], hooker, attempt)
      == Installed(matches[..i], hooker, attempt) + (if attempt(matches[i]) == Hooked then [Hook(matches[i], hooker)] else [])
    ensures Deoptimized(matches[..i + 1], attempt)
      == Deoptimized(matches[..i], attempt) + (if attempt(matches[i]) != DeoptimizeThrew then [matches[i]] else [])
  {
    assert matches[..i + 1][..i] == matches[..i];
  }

  /** A pass over two runs of matches is the pass over the first followed by the pass over the second. */
  lemma {:induction false} InstalledAppend(a: seq<Descriptor>, b: seq<Descriptor>, hooker: Hooker, attempt: Descriptor -> Attempt)
    ensures Installed(a + b, hooker, attempt) == Installed(a, hooker, attempt) + Installed(b, hooker, attempt)
    ensures Deoptimized(a + b, attempt) == Deoptimized(a, attempt) + Deoptimized(b, attempt)
  {
    if b == [] {
      assert a + b == a;
    } else {
      var n := |b| - 1;
      assert (a + b)[..|a + b| - 1] == a + b[..n];
      InstalledAppend(a, b[..n], hooker, attempt);
    }
  }

  /** Regrouping a concatenation; stated once so the state proof below stays small. */
  lemma AppendAssoc<T>(a: seq<T>, b: seq<T>, c: seq<T>)
    ensures (a + b) + c == a + (b + c)
  {
  }

  /** How many of `matches` fail at either step; each such failure is only logged. */
  function Failures(matches: seq<Descriptor>, attempt: Descriptor -> Attempt): (n: nat) {
    if matches == [] then 0
    else (if attempt(matches[0]) == Hooked then 0 else 1) + Failures(matches[1..], attempt)
  }

  lemma {:induction false} FailuresAppend(a: seq<Descriptor>, b: seq<Descriptor>, attempt: Descriptor -> Attempt)
    ensures Failures(a + b, attempt) == Failures(a, attempt) + Failures(b, attempt)
  {
    if a == [] {
      assert a + b == b;
    } else {
      assert (a + b)[1..] == a[1..] + b;
      FailuresAppend(a[1..], b, attempt);
    }
  }

  /** With N matches of which K fail, exactly N - K hooks are installed. */
  lemma {:induction false} InstalledCount(matches: seq<Descriptor>, hooker: Hooker, attempt: Descriptor -> Attempt)
    ensures |Installed(matches, hooker, attempt)| == |matches| - Failures(matches, attempt)
  {
    if matches != [] {
      var n := |matches| - 1;
      InstalledCount(matches[..n], hooker, attempt);
      FailuresAppend(matches[..n], [matches[n]], attempt);
      assert matches[..n] + [matches[n]] == matches;
    }
  }

  /** A match whose own attempt succeeds is installed, however its siblings fare. */
  lemma {:induction false} SuccessInstalled(matches: seq<Descriptor>, hooker: Hooker, attempt: Descriptor -> Attempt, i: nat)
    requires i < |matches| && attempt(matches[i]) == Hooked
    ensures Hook(matches[i], hooker) in Installed(matches, hooker, attempt)
  {
    var n := |matches| - 1;
    if i < n {
      assert matches[..n][i] == matches[i];
      SuccessInstalled(matches[..n], hooker, attempt, i);
    }
  }

  /** No match means no hook and no deoptimization: the absent overload is not an error. */
  lemma NoMatchNoEffect(catalog: seq<Descriptor>, name: string, hooker: Hooker, attempt: Descriptor -> Attempt)
    requires forall i :: 0 <= i < |catalog| ==> catalog[i].name != name
    ensures Installed(Matches(catalog, name), hooker, attempt) == []
    ensures Deoptimized(Matches(catalog, name), attempt) == []
  {
  }

  /** A DevicePolicyManager whose overloads of the enforced names return what the hookers expect. */
  predicate Conforms(catalog: seq<Descriptor>) {
    forall i, h: Hooker :: 0 <= i < |catalog| && catalog[i].name == h.Op() ==> catalog[i].ret == h.DeclaredReturn()
  }

  /**
   * The hooks `onPackageLoaded` installs, in the order it calls the installer: none for any
   * other package, and none when the declared methods cannot be listed.
   */
  function ActivationHooks(packageName: string, listing: Option<seq<Descriptor>>, attempt: Descriptor -> Attempt): (hooks: seq<Hook>)
    ensures packageName != TargetPackage || listing.None? ==> hooks == []
  {
    if packageName != TargetPackage then []
    else
      match listing
      case None => []
      case Some(catalog) =>
        Installed(Matches(catalog, "lockNow"), LockNowHooker, attempt)
          + Installed(Matches(catalog, "wipeData"), WipeDataHooker, attempt)
          + Installed(Matches(catalog, "resetPasswordWithToken"), ResetPasswordWithTokenHooker, attempt)
          + Installed(Matches(catalog, "wipeDevice"), WipeDeviceHooker, attempt)
  }

  /**
   * The overloads `onPackageLoaded` leaves deoptimized, in order: none for any other package,
   * and none when the declared methods cannot be listed.
   */
  function ActivationDeopts(packageName: string, listing: Option<seq<Descriptor>>, attempt: Descriptor -> Attempt): (ds: seq<Descriptor>)
    ensures packageName != TargetPackage || listing.None? ==> ds == []
  {
    if packageName != TargetPackage then []
    else
      match listing
      case None => []
      case Some(catalog) =>
        Deoptimized(Matches(catalog, "lockNow"), attempt)
          + Deoptimized(Matches(catalog, "wipeData"), attempt)
          + Deoptimized(Matches(catalog, "resetPasswordWithToken"), attempt)
          + Deoptimized(Matches(catalog, "wipeDevice"), attempt)
  }

  /** Every activation hook sits on a successfully hooked catalog entry carrying its hooker's name. */
  lemma ActivationSound(packageName: string, listing: Option<seq<Descriptor>>, attempt: Descriptor -> Attempt, k: nat)
    requires k < |ActivationHooks(packageName, listing, attempt)|
    ensures packageName == TargetPackage && listing.Some?
    ensures ActivationHooks(packageName, listing, attempt)[k].target in listing.value
    ensures ActivationHooks(packageName, listing, attempt)[k].target.name == ActivationHooks(packageName, listing, attempt)[k].hooker.Op()
    ensures attempt(ActivationHooks(packageName, listing, attempt)[k].target) == Hooked
  {
    var c := listing.value;
    var a := Installed(Matches(c, "lockNow"), LockNowHooker, attempt);
    var b := Installed(Matches(c, "wipeData"), WipeDataHooker, attempt);
    var r := Installed(Matches(c, "resetPasswordWithToken"), ResetPasswordWithTokenHooker, attempt);
    var w := Installed(Matches(c, "wipeDevice"), WipeDeviceHooker, attempt);
    var hooks := ActivationHooks(packageName, listing, attempt);
    assert hooks == a + b + r + w;
    InstalledSound(Matches(c, "lockNow"), LockNowHooker, attempt);
    InstalledSound(Matches(c, "wipeData"), WipeDataHooker, attempt);
    InstalledSound(Matches(c, "resetPasswordWithToken"), ResetPasswordWithTokenHooker, attempt);
    InstalledSound(Matches(c, "wipeDevice"), WipeDeviceHooker, attempt);
    MatchesMembers(c, "lockNow");
    MatchesMembers(c, "wipeData");
    MatchesMembers(c, "resetPasswordWithToken");
    MatchesMembers(c, "wipeDevice");
    if k < |a| {
      assert hooks[k] == a[k];
    } else if k < |a| + |b| {
      assert hooks[k] == b[k - |a|];
    } else if k < |a| + |b| + |r| {
      assert hooks[k] == r[k - |a| - |b|];
    } else {
      assert hooks[k] == w[k - |a| - |b| - |r|];
    }
  }

  /**
   * Activation on the target package hooks every overload of an enforced name whose own
   * attempt succeeds, with that name's hooker.
   */
  lemma ActivationComplete(catalog: seq<Descriptor>, attempt: Descriptor -> Attempt, i: nat, h: Hooker)
    requires i < |catalog| && catalog[i].name == h.Op() && attempt(catalog[i]) == Hooked
    ensures Hook(catalog[i], h) in ActivationHooks(TargetPackage, Some(catalog), attempt)
  {
    var m := Matches(catalog, h.Op());
    MatchesMembers(catalog, h.Op());
    assert catalog[i] in m;
    var j :| 0 <= j < |m| && m[j] == catalog[i];
    SuccessInstalled(m, h, attempt, j);
  }

  /** Every hook's placeholder is a legal result of the overload it sits on. */
  predicate AllFit(hooks: seq<Hook>) {
    forall k :: 0 <= k < |hooks| ==> Fits(hooks[k].hooker.SkipReturn(), hooks[k].target.ret)
  }

  lemma AllFitAppend(a: seq<Hook>, b: seq<Hook>)
    requires AllFit(a) && AllFit(b)
    ensures AllFit(a + b)
  {
    forall k | 0 <= k < |a + b|
      ensures Fits((a + b)[k].hooker.SkipReturn(), (a + b)[k].target.ret)
    {
      if k < |a| {
        assert (a + b)[k] == a[k];
      } else {
        assert (a + b)[k] == b[k - |a|];
      }
    }
  }

  /** On a conforming DevicePolicyManager every activation hook's placeholder fits its overload. */
  lemma ActivationTyped(packageName: string, listing: Option<seq<Descriptor>>, attempt: Descriptor -> Attempt)
    requires listing.Some? ==> Conforms(listing.value)
    ensures AllFit(ActivationHooks(packageName, listing, attempt))
  {
    var hooks := ActivationHooks(packageName, listing, attempt);
    forall k | 0 <= k < |hooks|
      ensures Fits(hooks[k].hooker.SkipReturn(), hooks[k].target.ret)
    {
      ActivationSound(packageName, listing, attempt, k);
      var c := listing.value;
      var i :| 0 <= i < |c| && c[i] == hooks[k].target;
      assert c[i].ret == hooks[k].hooker.DeclaredReturn();
    }
  }

  /** The position of a hooker in `onPackageLoaded`'s call order. */
  function Rank(h: Hooker): (r: nat) {
    match h
    case LockNowHooker => 0
    case WipeDataHooker => 1
    case ResetPasswordWithTokenHooker => 2
    case WipeDeviceHooker => 3
  }

  predicate InCallOrder(hooks: seq<Hook>) {
    forall i, j :: 0 <= i <= j < |hooks| ==> Rank(hooks[i].hooker) <= Rank(hooks[j].hooker)
  }

  /** Appending hooks of rank `n` or more to ordered hooks of rank `n` or less keeps the order. */
  lemma InCallOrderAppend(a: seq<Hook>, b: seq<Hook>, n: nat)
    requires InCallOrder(a) && InCallOrder(b)
    requires forall i :: 0 <= i < |a| ==> Rank(a[i].hooker) <= n
    requires forall j :: 0 <= j < |b| ==> n <= Rank(b[j].hooker)
    ensures InCallOrder(a + b)
  {
    forall i, j | 0 <= i <= j < |a + b|
      ensures Rank((a + b)[i].hooker) <= Rank((a + b)[j].hooker)
    {
      if j < |a| {
        assert (a + b)[i] == a[i] && (a + b)[j] == a[j];
      } else if i < |a| {
        assert (a + b)[i] == a[i] && (a + b)[j] == b[j - |a|];
      } else {
        assert (a + b)[i] == b[i - |a|] && (a + b)[j] == b[j - |a|];
      }
    }
  }

  /** Hooks come out grouped in the order lockNow, wipeData, resetPasswordWithToken, wipeDevice. */
  lemma ActivationInCallOrder(packageName: string, listing: Option<seq<Descriptor>>, attempt: Descriptor -> Attempt)
    ensures InCallOrder(ActivationHooks(packageName, listing, attempt))
  {
    if packageName == TargetPackage && listing.Some? {
      var c := listing.value;
      var a := Installed(Matches(c, "lockNow"), LockNowHooker, attempt);
      var b := Installed(Matches(c, "wipeData"), WipeDataHooker, attempt);
      var r := Installed(Matches(c, "resetPasswordWithToken"), ResetPasswordWithTokenHooker, attempt);
      var w := Installed(Matches(c, "wipeDevice"), WipeDeviceHooker, attempt);
      InstalledSound(Matches(c, "lockNow"), LockNowHooker, attempt);
      InstalledSound(Matches(c, "wipeData"), WipeDataHooker, attempt);
      InstalledSound(Matches(c, "resetPasswordWithToken"), ResetPasswordWithTokenHooker, attempt);
      InstalledSound(Matches(c, "wipeDevice"), WipeDeviceHooker, attempt);
      InCallOrderAppend(a, b, 0);
      assert forall i :: 0 <= i < |a + b| ==> Rank((a + b)[i].hooker) <= 1;
      InCallOrderAppend(a + b, r, 1);
      assert forall i :: 0 <= i < |a + b + r| ==> Rank((a + b + r)[i].hooker) <= 2;
      InCallOrderAppend(a + b + r, w, 2);
    }
  }

  /** The installer's state: the hooks bound so far and the overloads deoptimized so far. */
  class HookEngine {
    var installed: seq<Hook>
    var deoptimized: seq<Descriptor>

    constructor ()
      ensures installed == [] && deoptimized == []
    {
      installed := [];
      deoptimized := [];
    }

    /** Every installed hook's placeholder is a legal result of the overload it sits on. */
    predicate Typed()
      reads this
    {
      AllFit(installed)
    }

    /**
     * `hookAllByName`: resolve the overloads named `methodName` and try each one, deoptimize
     * first and then hook; a throw at either step only skips that overload.
     */
    method HookAllByName(catalog: seq<Descriptor>, methodName: string, hooker: Hooker, attempt: Descriptor -> Attempt)
      modifies this
      ensures installed == old(installed) + Installed(Matches(catalog, methodName), hooker, attempt)
      ensures deoptimized == old(deoptimized) + Deoptimized(Matches(catalog, methodName), attempt)
    {
      var matches := Matches(catalog, methodName);
      if |matches| == 0 {
        assert installed + [] == installed && deoptimized + [] == deoptimized;
        return;
      }
      var i := 0;
      while i < |matches|
        invariant 0 <= i <= |matches|
        invariant installed == old(installed) + Installed(matches[..i], hooker, attempt)
        invariant deoptimized == old(deoptimized) + Deoptimized(matches[..i], attempt)
      {
        var m := matches[i];
        Step(matches, i, hooker, attempt);
        var outcome := attempt(m);
        var newHooks: seq<Hook> := if outcome == Hooked then [Hook(m, hooker)] else [];
        var newDeopts: seq<Descriptor> := if outcome != DeoptimizeThrew then [m] else [];
        assert old(installed) + Installed(matches[..i], hooker, attempt) + newHooks
          == old(installed) + (Installed(matches[..i], hooker, attempt) + newHooks);
        assert old(deoptimized) + Deoptimized(matches[..i], attempt) + newDeopts
          == old(deoptimized) + (Deoptimized(matches[..i], attempt) + newDeopts);
        if outcome != DeoptimizeThrew {
          deoptimized := deoptimized + [m];
        }
        if outcome == Hooked {
          installed := installed + [Hook(m, hooker)];
        }
        i := i + 1;
      }
      assert matches[..i] == matches;
    }

    /**
     * `onPackageLoaded`: nothing unless the package is the target; there, the installer runs
     * for the four names in a fixed order. When the declared methods cannot be listed the
     * first installer call throws and the surrounding catch ends the fan-out.
     */
    method OnPackageLoaded(packageName: string, listing: Option<seq<Descriptor>>, attempt: Descriptor -> Attempt)
      modifies this
      ensures packageName != TargetPackage ==> installed == old(installed) && deoptimized == old(deoptimized)
      ensures installed == old(installed) + ActivationHooks(packageName, listing, attempt)
      ensures deoptimized == old(deoptimized) + ActivationDeopts(packageName, listing, attempt)
      ensures old(Typed()) && (listing.Some? ==> Conforms(listing.value)) ==> Typed()
    {
      if packageName != TargetPackage {
        return;
      }
      match listing
      case None =>
        assert installed + [] == installed && deoptimized + [] == deoptimized;
      case Some(catalog) =>
        ghost var h0, d0 := installed, deoptimized;
        HookAllByName(catalog, "lockNow", LockNowHooker, attempt);
        HookAllByName(catalog, "wipeData", WipeDataHooker, attempt);
        HookAllByName(catalog, "resetPasswordWithToken", ResetPasswordWithTokenHooker, attempt);
        HookAllByName(catalog, "wipeDevice", WipeDeviceHooker, attempt);
        ghost var a := Installed(Matches(catalog, "lockNow"), LockNowHooker, attempt);
        ghost var b := Installed(Matches(catalog, "wipeData"), WipeDataHooker, attempt);
        ghost var r := Installed(Matches(catalog, "resetPasswordWithToken"), ResetPasswordWithTokenHooker, attempt);
        ghost var w := Installed(Matches(catalog, "wipeDevice"), WipeDeviceHooker, attempt);
        AppendAssoc(h0, a, b);
        AppendAssoc(h0, a + b, r);
        AppendAssoc(h0, a + b + r, w);
        ghost var da := Deoptimized(Matches(catalog, "lockNow"), attempt);
        ghost var db := Deoptimized(Matches(catalog, "wipeData"), attempt);
        ghost var dr := Deoptimized(Matches(catalog, "resetPasswordWithToken"), attempt);
        ghost var dw := Deoptimized(Matches(catalog, "wipeDevice"), attempt);
        AppendAssoc(d0, da, db);
        AppendAssoc(d0, da + db, dr);
        AppendAssoc(d0, da + db + dr, dw);
      if old(Typed()) && (listing.Some? ==> Conforms(listing.value)) {
        ActivationTyped(packageName, listing, attempt);
        AllFitAppend(old(installed), ActivationHooks(packageName, listing, attempt));
      }
    }

    /**
     * A caller invokes the overload under installed hook `k`: the hook's before-phase skips
     * the real body and the caller gets the hooker's placeholder, which on a typed engine is
     * a legal result of that overload.
     */
    method Call(k: nat, args: seq<Value>, body: Value, platform: Platform)
      returns (result: Value, bodyRan: bool, posted: Option<Notification>)
      requires k < |installed|
      ensures !bodyRan
      ensures result == installed[k].hooker.SkipReturn()
      ensures Typed() ==> Fits(result, installed[k].target.ret)
    {
      var hook := installed[k];
      result, bodyRan, posted := Invoke(hook.hooker, hook.target, args, body, platform);
    }
  }
}
