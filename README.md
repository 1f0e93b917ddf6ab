# Affranchi interception engine, modelled in Dafny

Affranchi is an Xposed module for Android. When the work-profile device policy controller
`com.google.android.apps.work.clouddpc` is loaded, it hooks every overload of four
`DevicePolicyManager` methods: `lockNow`, `wipeData`, `resetPasswordWithToken` and
`wipeDevice`. Each hook's before-phase posts a best-effort notification to the user. It then
calls `returnAndSkip`, so the real method never runs and the caller gets a placeholder: `null`
for the three void methods and `false` for `resetPasswordWithToken`.

This project models the engine in `ModuleMain.kt`:

- `signatures.dfy`: parameter and return kinds, result-slot values, and method descriptors.
  `Fits` says which values a method of a given return kind may return.
- `policy.dfy`: the `when` table of `notifyAndSkip` (title and message for each operation,
  with a catch-all entry). Also the notification id `NOTIF_ID_BASE + idOffset`, computed with
  Kotlin's 32-bit `Int` wrap-around.
- `hookers.dfy`: the four hooker classes as one datatype. Each gives its operation name,
  placeholder, id offset, and the return kind `DevicePolicyManager` declares for it.
- `interception.dfy`: one intercepted call.
  - `Callback` is the framework's per-call record. It holds a result slot, a skip flag and a
    phase: Pending, then Decided, then Completed.
  - `NotifyAndSkip` and `Before` are the before-phase. `After` is the after-phase, which only
    logs.
  - `Invoke` is the framework's call sequence: the before-phase, then the real body unless it
    was skipped, then the after-phase.
  - `PostNotificationAsWritten`, `NotifyAndSkipAsWritten` and `InvokeAsWritten` model
    `postNotification`'s narrow `catch`, described under Findings.
- `installation.dfy`: overload resolution (`Matches`) and the installer pass (`Installed`,
  `Deoptimized`), both as specification functions. `HookEngine` is a class holding the hooks
  installed so far and the overloads deoptimized so far. Its methods are `HookAllByName` (the
  loop over the matches), `OnPackageLoaded` (the package gate) and `Call` (a caller invoking a
  hooked overload).
- `scenarios.dfy`: activation on a small five-entry catalog. It has one `lockNow` overload, one
  unrelated method, two `wipeData` overloads of which one fails to hook, one
  `resetPasswordWithToken` overload, and no `wipeDevice`.

External calls become parameters:

- `deoptimize` and `hook` become `attempt: Descriptor -> Attempt`. It says whether the pair
  succeeds, `deoptimize` throws, or `hook` throws after `deoptimize` succeeded.
- The reflective method listing becomes `listing: Option<seq<Descriptor>>`. `None` means
  `declaredMethods` threw.
- `getAppContext` and the notification manager become `Platform`. It says whether a context
  was found, and whether posting through it delivers, throws an `Exception`, or throws a
  throwable that is not an `Exception`.

How the code behaves at its edges:

- An operation name without an entry of its own takes the catch-all entry at line 105
  ("Action blocked", with a message that names the operation).
- The four installer calls run in the order of lines 199-203, and the hooks come out grouped
  in that order.
- No check at install time compares a placeholder with the hooked overload's return kind.
  `Conforms` is the hypothesis about `DevicePolicyManager` under which every placeholder fits.
- A call posts at most one notification, and none when no context is found or posting throws.

## Model

| member | source | states |
|---|---|---|
| Policy.WrapInt32 | affranchi/src/main/java/fr/xenorf/affranchi/ModuleMain.kt:75 | the result is a 32-bit value congruent to the input modulo 2^32, and a value already in range is unchanged |
| Policy.NotificationId | affranchi/src/main/java/fr/xenorf/affranchi/ModuleMain.kt:75 | the id is a 32-bit value congruent to 1234 + idOffset modulo 2^32, and equals 1234 + idOffset for every offset whose sum does not overflow, negative ones included |
| Policy.NotificationIdWraps | affranchi/src/main/java/fr/xenorf/affranchi/ModuleMain.kt:75 | at the largest 32-bit offset the addition wraps around to the bottom of the range |
| Policy.NotificationIdInjective | affranchi/src/main/java/fr/xenorf/affranchi/ModuleMain.kt:75 | distinct 32-bit offsets give distinct ids, even where the addition wraps around |
| Policy.PolicyFor | affranchi/src/main/java/fr/xenorf/affranchi/ModuleMain.kt:100-106 | a name gets a title other than "Action blocked" exactly when it is one of the four registered names; for any other name the message contains the name |
| Policy.TableEntries | affranchi/src/main/java/fr/xenorf/affranchi/ModuleMain.kt:101-104 | lockNow gives "Lock prevented"; wipeData and wipeDevice give the same "Wipe prevented" notice; resetPasswordWithToken gives "Password reset blocked"; these three notices are pairwise different |
| Policy.DefaultMessagesDistinguishNames | affranchi/src/main/java/fr/xenorf/affranchi/ModuleMain.kt:105 | two unregistered names with the same catch-all notice are the same name |
| Hookers.Hooker.Op | affranchi/src/main/java/fr/xenorf/affranchi/ModuleMain.kt:120-178 | the name each before-phase passes to notifyAndSkip is one of the four with an entry of their own |
| Hookers.Hooker.SkipReturn | affranchi/src/main/java/fr/xenorf/affranchi/ModuleMain.kt:120-178 | the placeholder each before-phase passes (null for the void operations, false for resetPasswordWithToken) is a legal result of the operation's declared return kind |
| Hookers.Hooker.IdOffset | affranchi/src/main/java/fr/xenorf/affranchi/ModuleMain.kt:120-178 | the offset each before-phase passes is one of 0 to 3, a 32-bit value |
| Hookers.OpsRegisteredAndDistinct | affranchi/src/main/java/fr/xenorf/affranchi/ModuleMain.kt:120-178 | no hooker reaches the catch-all entry, and different hookers dispatch different names |
| Hookers.NotificationIdsDistinct | affranchi/src/main/java/fr/xenorf/affranchi/ModuleMain.kt:120-178 | the hookers' ids are 1234 + offset, lie in 1234..1237, and are pairwise distinct |
| Interception.PostNotificationAsWritten | affranchi/src/main/java/fr/xenorf/affranchi/ModuleMain.kt:60-79 | as written: no context means a quiet return; a notification is posted exactly when a context is found and delivery succeeds; a throwable escapes exactly when one that is not an Exception is raised while posting |
| Interception.PostNotification | affranchi/src/main/java/fr/xenorf/affranchi/ModuleMain.kt:60-79 | with the catch widened to every throwable: a notification is posted exactly when a context is found and delivery succeeds, with the given title, text and id; nothing escapes |
| Interception.CatchWideningAgrees | affranchi/src/main/java/fr/xenorf/affranchi/ModuleMain.kt:76 | the widened catch differs from the code as written only where a non-Exception throwable would escape, and there it drops the notification |
| Interception.Callback.ReturnAndSkip | affranchi/src/main/java/fr/xenorf/affranchi/ModuleMain.kt:108 | the result slot holds the given value, the skip flag is set, and the call is Decided |
| Interception.NotifyAndSkipAsWritten | affranchi/src/main/java/fr/xenorf/affranchi/ModuleMain.kt:100-109 | as written: when posting lets a throwable escape, returnAndSkip is not reached and the call stays Pending and unskipped; otherwise the call ends skipped with the placeholder in the slot |
| Interception.NotifyAndSkip | affranchi/src/main/java/fr/xenorf/affranchi/ModuleMain.kt:100-109 | over the widened catch the call always ends skipped with the given placeholder in the slot; the notification attempted is the table's notice for the operation |
| Interception.Before | affranchi/src/main/java/fr/xenorf/affranchi/ModuleMain.kt:118-121 | a hooker's before-phase decides the call with its own placeholder and posts its own operation's notice under its own offset |
| Interception.After | affranchi/src/main/java/fr/xenorf/affranchi/ModuleMain.kt:124-128 | an after-phase (lines 124-128, 143-147, 163-167, 182-186) leaves the call's result slot and skip flag unchanged |
| Interception.Invoke | affranchi/src/main/java/fr/xenorf/affranchi/ModuleMain.kt:113-188 | over the widened catch the real body never runs; the caller gets the hooker's placeholder whatever the arguments and the platform; the placeholder fits the overload's return kind; a notification is posted exactly when a context exists and delivery succeeds |
| Interception.InvokeAsWritten | affranchi/src/main/java/fr/xenorf/affranchi/ModuleMain.kt:100-109 | as written the real body runs, and its own result reaches the caller, exactly when a context exists and posting raises a throwable that is not an Exception; in every other case the caller gets the placeholder |
| Interception.ErrorLetsWipeRun | affranchi/src/main/java/fr/xenorf/affranchi/ModuleMain.kt:76 | a wipeData(int) call while posting raises an Error runs the real wipe under the code as written and does not under the widened catch |
| Installation.Matches | affranchi/src/main/java/fr/xenorf/affranchi/ModuleMain.kt:83 | resolution never yields more overloads than the catalog declares |
| Installation.MatchesMembers | affranchi/src/main/java/fr/xenorf/affranchi/ModuleMain.kt:83 | the resolved overloads are exactly the catalog entries with that exact name, and no others |
| Installation.MatchesExact | affranchi/src/main/java/fr/xenorf/affranchi/ModuleMain.kt:83 | each entry with the name is resolved as often as it is declared; an entry with another name never is |
| Installation.Installed | affranchi/src/main/java/fr/xenorf/affranchi/ModuleMain.kt:88-96 | one pass installs at most one hook per match |
| Installation.Deoptimized | affranchi/src/main/java/fr/xenorf/affranchi/ModuleMain.kt:89-91 | one pass deoptimizes at most one overload per match |
| Installation.NoMatchNoEffect | affranchi/src/main/java/fr/xenorf/affranchi/ModuleMain.kt:84-87 | when no entry has the name, the pass installs and deoptimizes nothing |
| Installation.InstalledSound | affranchi/src/main/java/fr/xenorf/affranchi/ModuleMain.kt:88-96 | every hook a pass installs binds the given hooker to a match whose own attempt succeeded |
| Installation.DeoptimizedSound | affranchi/src/main/java/fr/xenorf/affranchi/ModuleMain.kt:89-91 | a pass deoptimizes only matches, and only those whose deoptimize step did not throw |
| Installation.InstalledCount | affranchi/src/main/java/fr/xenorf/affranchi/ModuleMain.kt:88-96 | with N matches of which K fail at either step, exactly N - K hooks are installed |
| Installation.SuccessInstalled | affranchi/src/main/java/fr/xenorf/affranchi/ModuleMain.kt:88-96 | a match whose own attempt succeeds is installed however its siblings fare |
| Installation.InstalledAppend | affranchi/src/main/java/fr/xenorf/affranchi/ModuleMain.kt:88-96 | the pass over two runs of matches is the pass over the first followed by the pass over the second: no attempt affects another |
| Installation.HookEngine.HookAllByName | affranchi/src/main/java/fr/xenorf/affranchi/ModuleMain.kt:82-97 | the hooks installed before the call stay as they were; the call appends exactly the pass over the resolved overloads, and likewise for the deoptimized overloads |
| Installation.ActivationHooks | affranchi/src/main/java/fr/xenorf/affranchi/ModuleMain.kt:196-205 | loading a package other than com.google.android.apps.work.clouddpc installs nothing, and neither does a load whose method listing throws |
| Installation.ActivationDeopts | affranchi/src/main/java/fr/xenorf/affranchi/ModuleMain.kt:196-205 | loading another package, or a load whose method listing throws, deoptimizes nothing |
| Installation.ActivationSound | affranchi/src/main/java/fr/xenorf/affranchi/ModuleMain.kt:196-203 | every activation hook comes from the target package and a readable catalog, and sits on a catalog entry that carries its hooker's name and whose attempt succeeded |
| Installation.ActivationComplete | affranchi/src/main/java/fr/xenorf/affranchi/ModuleMain.kt:198-203 | on the target package, every overload of an enforced name whose own attempt succeeds is hooked with that name's hooker |
| Installation.ActivationTyped | affranchi/src/main/java/fr/xenorf/affranchi/ModuleMain.kt:199-203 | on a catalog that declares the enforced methods with their real return kinds, every activation hook's placeholder fits its overload |
| Installation.ActivationInCallOrder | affranchi/src/main/java/fr/xenorf/affranchi/ModuleMain.kt:199-203 | activation hooks are grouped in the order lockNow, wipeData, resetPasswordWithToken, wipeDevice |
| Installation.HookEngine.OnPackageLoaded | affranchi/src/main/java/fr/xenorf/affranchi/ModuleMain.kt:192-207 | any other package leaves the state unchanged; otherwise the four passes run in order and are appended to the state; when the method listing throws, nothing is installed; the state stays typed on a conforming catalog |
| Installation.HookEngine.Call | affranchi/src/main/java/fr/xenorf/affranchi/ModuleMain.kt:113-188 | calling an installed overload never runs its body and returns its hooker's placeholder, which on a typed engine is a legal result of that overload |
| Scenarios.ActivationWithOneFailure | affranchi/src/main/java/fr/xenorf/affranchi/ModuleMain.kt:192-207 | for the five-entry catalog, three hooks are installed in order and all four matches are deoptimized; the unrelated method is not touched, the missing wipeDevice is no error, and another package gets nothing |
| Scenarios.ConcreteActivation | affranchi/src/main/java/fr/xenorf/affranchi/ModuleMain.kt:196-203 | on the concrete catalog the three hooks are exactly lockNow(), wipeData(int, Object) and resetPasswordWithToken, each with a placeholder its overload can return |

## Findings

| source | as written | input that shows it | evidently intended | confidence | as-written member | corrected member |
|---|---|---|---|---|---|---|
| affranchi/src/main/java/fr/xenorf/affranchi/ModuleMain.kt:76 | `postNotification` catches only `Exception`, while the engine's other boundaries (lines 47, 93, 204) catch `Throwable`; a throwable that is not an `Exception`, raised in lines 66-75, escapes before `returnAndSkip` at line 108 | a `wipeData(int)` call while `NotificationCompat` raises a `LinkageError` (or any `Error`) with a context present: the skip is never requested and the real wipe runs | every failure while posting is swallowed and the call is skipped with its placeholder | medium, not executed | Interception.InvokeAsWritten, Interception.ErrorLetsWipeRun | Interception.Invoke |

## Left out

- Logging (`log(...)` and its strings) is not modelled. Logging has no effect on control flow.
- The `lateinit module` singleton is left out. The engine state is passed explicitly as a
  `HookEngine` object.
- Notification delivery is reduced to one of three outcomes (`Delivery`). This covers the
  `NotificationManager` lookup, `ensureChannel` with its SDK-version check,
  `NotificationCompat.Builder` and `notify`, but not which of these steps throws.
- `getAppContext` (its reflective lookups through `ActivityThread` and `AppGlobals`) is
  reduced to an optional context. It catches `Throwable`, so nothing escapes it.
- Xposed internals are not modelled. `deoptimize` and `hook` are an outcome per descriptor.
  How the framework dispatches a hooked call is modelled only as far as `Invoke` and
  `Callback.Proceed` describe it.
- Interception.InvokeAsWritten: takes the framework to run the real body after a before-phase
  throws, as a before-phase that never called `returnAndSkip` has not asked to skip. The
  framework is not part of this model. If it let the throwable reach the caller instead, the
  caller would see an exception rather than the real body running.
- Interception.PostNotification: models the `catch` at line 76 widened to every throwable. The
  code as written is `PostNotificationAsWritten` (see Findings).
- Interception.NotifyAndSkip: is built on the widened catch. The code as written is
  `NotifyAndSkipAsWritten`, which leaves the call undecided when an `Error` escapes.
- Interception.Before: is built on the widened catch, like `NotifyAndSkip`.
- Interception.Invoke: never runs the body only under the widened catch. The code as written is
  `InvokeAsWritten`.
- Installation.HookEngine.Call: dispatches through `Invoke`, so its `!bodyRan` rests on the
  widened catch.
- Installer outcomes are a function of the descriptor. An attempt cannot depend on earlier
  attempts, and two identical descriptors get the same outcome, which matters only if reflection
  listed the same method twice.
- The `Hooker` class objects that `before` returns, and the `ctx` parameter of `after`, carry
  no state. They are not modelled.
- `DevicePolicyManager` itself is a given catalog sequence. `Conforms` states the one fact the
  typing property needs about it: the enforced methods have their real return kinds.
- `declaredMethods` can only fail on the first installer call. The first call encounters the
  failure, and the surrounding `catch` ends the fan-out.
- `affranchi/build.gradle.kts` is build configuration and has no behaviour to model.
