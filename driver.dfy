/** The reconciliation driver of the scheduler's command-line tool
    (src/databricks_apps_scheduler/cli.py): it reads each app's compute
    state, looks the requested names up in the workspace's app directory,
    takes the early exits for missing apps, starts or stops every app not
    already in a terminal state for the action, and reports the run as an
    exit code and a summary record. */
module Driver {
  import opened Wrappers
  import opened Text
  import opened Resolver

  // ---------------------------------------------------------------------
  // Apps and their state names

  /** An app's compute state as the directory reports it: an enum member
      with a string `name`, or some other value known by its string form. */
  datatype StateValue = Named(name: string) | Unnamed(text: string)

  /** A directory entry: the app's name and its compute state, `None` when
      the app has no compute status or the status has no state. */
  datatype App = App(name: string, state: Option<StateValue>)

  const ENUM_PREFIX: string := "ComputeState."

  /** `_state_name`: `UNKNOWN` without a state, else the state's name, or
      its string form without the enum prefix, upper-cased. */
  function StateName(app: App): (r: string)
    ensures NoLowerCase(r)
  {
    match app.state
    case None => "UNKNOWN"
    case Some(Named(n)) => Upper(n)
    case Some(Unnamed(t)) => Upper(RemoveAll(t, ENUM_PREFIX))
  }

  /** State names ignore case, and an enum member printed as
      `ComputeState.X` gets the same state name as one read by its name `X`
      (its member names are upper-case). */
  lemma StateNameAgrees(appName: string, x: string)
    requires NoLowerCase(x)
    ensures StateName(App(appName, Some(Unnamed(ENUM_PREFIX + x)))) == StateName(App(appName, Some(Named(x))))
    ensures StateName(App(appName, Some(Named(Lower(x))))) == StateName(App(appName, Some(Named(x))))
  {
    var s := ENUM_PREFIX + x;
    assert s[..|ENUM_PREFIX|] == ENUM_PREFIX;
    assert s[|ENUM_PREFIX|..] == x;
    assert !NoLowerCase(ENUM_PREFIX) by {
      assert 'o' == ENUM_PREFIX[1];
    }
    RemoveAllAbsent(x, ENUM_PREFIX);
    UpperIgnoresCase(x);
  }

  // ---------------------------------------------------------------------
  // Terminal states

  const RUNNING_STATES: set<string> := {"ACTIVE", "STARTING"}
  const STOPPED_STATES: set<string> := {"STOPPED", "STOPPING"}

  /** The states in which an app needs no call for the action. */
  function TerminalStates(action: Action): (r: set<string>)
    ensures r == RUNNING_STATES || r == STOPPED_STATES
    ensures r == RUNNING_STATES <==> action == Start
  {
    if action == Start then RUNNING_STATES else STOPPED_STATES
  }

  /** No state is terminal for both actions, and an app whose state is
      unknown is acted on whatever the action. */
  lemma TerminalStatesSpec()
    ensures RUNNING_STATES * STOPPED_STATES == {}
    ensures "UNKNOWN" !in TerminalStates(Start) && "UNKNOWN" !in TerminalStates(Stop)
  {
    assert "UNKNOWN"[0] == 'U';
    assert "ACTIVE"[0] == 'A' && "STARTING"[3] == 'R' && "STOPPED"[2] == 'O' && "STOPPING"[5] == 'I';
    assert "STOPPED"[6] == 'D' && "STOPPING"[6] == 'N';
  }

  /** Whether the loop skips `app` for `action`. */
  predicate IsSettled(app: App, action: Action) {
    StateName(app) in TerminalStates(action)
  }

  /** An app without a compute state is never skipped: `UNKNOWN` is
      terminal for neither action. */
  lemma StatelessAppIsActedOn(name: string)
    ensures !IsSettled(App(name, None), Start) && !IsSettled(App(name, None), Stop)
  {
    TerminalStatesSpec();
  }

  // ---------------------------------------------------------------------
  // Looking names up: `{app.name: app for app in listing}`

  /** The lookup table built from the listing; a later entry with the same
      name replaces an earlier one. */
  function ByName(listing: seq<App>): map<string, App> {
    if listing == [] then map[]
    else
      var n := |listing| - 1;
      ByName(listing[..n])[listing[n].name := listing[n]]
  }

  /** The position of the last entry called `name`, or -1 when there is
      none. */
  function LastIndex(listing: seq<App>, name: string): (k: int)
    ensures -1 <= k < |listing|
    ensures k >= 0 ==> listing[k].name == name
    ensures forall j :: k < j < |listing| ==> listing[j].name != name
  {
    if listing == [] then -1
    else
      var n := |listing| - 1;
      if listing[n].name == name then n else LastIndex(listing[..n], name)
  }

  /** The table holds exactly the listed names, each with its last entry. */
  lemma {:induction false} ByNameSpec(listing: seq<App>)
    ensures forall name :: name in ByName(listing) <==> LastIndex(listing, name) >= 0
    ensures forall name :: name in ByName(listing) ==> ByName(listing)[name] == listing[LastIndex(listing, name)]
  {
    if listing != [] {
      var n := |listing| - 1;
      ByNameSpec(listing[..n]);
      forall name ensures name in ByName(listing) <==> LastIndex(listing, name) >= 0 {
        if listing[n].name != name {
          assert LastIndex(listing, name) == LastIndex(listing[..n], name);
        }
      }
      forall name | name in ByName(listing)
        ensures ByName(listing)[name] == listing[LastIndex(listing, name)]
      {
        if listing[n].name != name {
          var k := LastIndex(listing[..n], name);
          assert LastIndex(listing, name) == k;
          assert listing[..n][k] == listing[k];
        }
      }
    }
  }

  /** Every entry of the table is filed under its own name. */
  lemma ByNameKeys(listing: seq<App>)
    ensures forall name :: name in ByName(listing) ==> ByName(listing)[name].name == name
  {
    ByNameSpec(listing);
  }

  // ---------------------------------------------------------------------
  // Selecting the targets: `_select_target_apps`

  /** The apps found for the requested names, in request order. */
  function Found(lookup: map<string, App>, names: seq<string>): seq<App> {
    if names == [] then []
    else
      var n := |names| - 1;
      Found(lookup, names[..n]) + (if names[n] in lookup then [lookup[names[n]]] else [])
  }

  /** The requested names without an app, in request order. */
  function Missing(lookup: map<string, App>, names: seq<string>): seq<string> {
    if names == [] then []
    else
      var n := |names| - 1;
      Missing(lookup, names[..n]) + (if names[n] in lookup then [] else [names[n]])
  }

  /** Every requested name goes to exactly one of the two lists, and it goes
      there at the position given by the number of earlier names that went
      the same way, so both lists keep the request order. A found name
      contributes its table entry; a missing name contributes itself. */
  lemma SelectSpec(lookup: map<string, App>, names: seq<string>)
    ensures |Found(lookup, names)| + |Missing(lookup, names)| == |names|
    ensures forall i :: 0 <= i < |names| && names[i] in lookup ==>
      |Found(lookup, names[..i])| < |Found(lookup, names)|
      && Found(lookup, names)[|Found(lookup, names[..i])|] == lookup[names[i]]
    ensures forall i :: 0 <= i < |names| && names[i] !in lookup ==>
      |Missing(lookup, names[..i])| < |Missing(lookup, names)|
      && Missing(lookup, names)[|Missing(lookup, names[..i])|] == names[i]
    ensures forall x :: x in Missing(lookup, names) <==> x in names && x !in lookup
  {
    SelectCount(lookup, names);
    FoundRoute(lookup, names);
    MissingRoute(lookup, names);
    MissingMembers(lookup, names);
  }

  lemma {:induction false} SelectCount(lookup: map<string, App>, names: seq<string>)
    ensures |Found(lookup, names)| + |Missing(lookup, names)| == |names|
  {
    if names != [] {
      SelectCount(lookup, names[..|names| - 1]);
    }
  }

  lemma {:induction false} FoundRoute(lookup: map<string, App>, names: seq<string>)
    ensures forall i :: 0 <= i < |names| && names[i] in lookup ==>
      |Found(lookup, names[..i])| < |Found(lookup, names)|
      && Found(lookup, names)[|Found(lookup, names[..i])|] == lookup[names[i]]
  {
    if names != [] {
      var n := |names| - 1;
      var p := names[..n];
      FoundRoute(lookup, p);
      forall i | 0 <= i < n ensures names[..i] == p[..i] && names[i] == p[i] {
      }
      assert names[..n] == p;
    }
  }

  lemma {:induction false} MissingRoute(lookup: map<string, App>, names: seq<string>)
    ensures forall i :: 0 <= i < |names| && names[i] !in lookup ==>
      |Missing(lookup, names[..i])| < |Missing(lookup, names)|
      && Missing(lookup, names)[|Missing(lookup, names[..i])|] == names[i]
  {
    if names != [] {
      var n := |names| - 1;
      var p := names[..n];
      MissingRoute(lookup, p);
      var m := Missing(lookup, names);
      assert m[..|Missing(lookup, p)|] == Missing(lookup, p);
      forall i | 0 <= i < |names| && names[i] !in lookup
        ensures |Missing(lookup, names[..i])| < |m| && m[|Missing(lookup, names[..i])|] == names[i]
      {
        if i < n {
          assert names[..i] == p[..i] && names[i] == p[i];
        } else {
          assert names[..i] == p;
        }
      }
    }
  }

  lemma {:induction false} MissingMembers(lookup: map<string, App>, names: seq<string>)
    ensures forall x :: x in Missing(lookup, names) <==> x in names && x !in lookup
  {
    if names != [] {
      var n := |names| - 1;
      var p := names[..n];
      MissingMembers(lookup, p);
      assert names == p + [names[n]];
    }
  }

  /** With the table built from a listing, each target is the last entry
      carrying its name, and that name was requested. */
  lemma FoundFromListing(listing: seq<App>, names: seq<string>)
    ensures forall t :: t in Found(ByName(listing), names) ==>
      t.name in names && LastIndex(listing, t.name) >= 0 && t == listing[LastIndex(listing, t.name)]
  {
    var lookup := ByName(listing);
    ByNameSpec(listing);
    ByNameKeys(listing);
    FoundFrom(lookup, names);
  }

  lemma {:induction false} FoundFrom(lookup: map<string, App>, names: seq<string>)
    ensures forall t :: t in Found(lookup, names) ==> exists x :: x in names && x in lookup && lookup[x] == t
  {
    if names != [] {
      var n := |names| - 1;
      FoundFrom(lookup, names[..n]);
      forall t | t in Found(lookup, names) ensures exists x :: x in names && x in lookup && lookup[x] == t {
        if t in Found(lookup, names[..n]) {
          var x :| x in names[..n] && x in lookup && lookup[x] == t;
          assert x in names;
        } else {
          assert names[n] in names;
        }
      }
    }
  }

  // ---------------------------------------------------------------------
  // The workspace's app directory, as the tests fake it

  /** The `apps` service of a workspace client: a fixed listing, the calls
      made so far, and the names whose start or stop call raises. */
  class AppsApi {
    const apps: seq<App>
    const failing: set<string>
    var started: seq<string>
    var stopped: seq<string>

    constructor (apps: seq<App>, failing: set<string>)
      ensures this.apps == apps && this.failing == failing
      ensures started == [] && stopped == []
    {
      this.apps := apps;
      this.failing := failing;
      started := [];
      stopped := [];
    }

    /** `apps.list()`. */
    function List(): seq<App> {
      apps
    }

    /** `apps.start_and_wait(name)`: the call is logged; `ok` is false when
        it raises. */
    method StartAndWait(name: string) returns (ok: bool)
      modifies this
      ensures started == old(started) + [name] && stopped == old(stopped)
      ensures ok <==> name !in failing
    {
      started := started + [name];
      ok := name !in failing;
    }

    /** `apps.stop_and_wait(name)`, logged like a start. */
    method StopAndWait(name: string) returns (ok: bool)
      modifies this
      ensures stopped == old(stopped) + [name] && started == old(started)
      ensures ok <==> name !in failing
    {
      stopped := stopped + [name];
      ok := name !in failing;
    }
  }

  /** `_select_target_apps(client, app_names)`: builds the lookup table from
      the listing, then sorts the requested names into targets and missing
      names. */
  method SelectTargetApps(api: AppsApi, appNames: seq<string>) returns (targets: seq<App>, missing: seq<string>)
    ensures targets == Found(ByName(api.apps), appNames)
    ensures missing == Missing(ByName(api.apps), appNames)
  {
    var listing := api.List();
    var byName: map<string, App> := map[];
    var k := 0;
    while k < |listing|
      invariant 0 <= k <= |listing|
      invariant byName == ByName(listing[..k])
    {
      assert listing[..k + 1][..k] == listing[..k];
      byName := byName[listing[k].name := listing[k]];
      k := k + 1;
    }
    assert listing[..k] == listing;
    targets, missing := [], [];
    var i := 0;
    while i < |appNames|
      invariant 0 <= i <= |appNames|
      invariant targets == Found(byName, appNames[..i])
      invariant missing == Missing(byName, appNames[..i])
    {
      var appName := appNames[i];
      assert appNames[..i + 1][..i] == appNames[..i];
      if appName !in byName {
        missing := missing + [appName];
      } else {
        targets := targets + [byName[appName]];
      }
      i := i + 1;
    }
    assert appNames[..i] == appNames;
  }

  // ---------------------------------------------------------------------
  // The per-app loop

  /** Counters and calls of the loop: apps changed, calls that raised, and
      the names passed to the start or stop call, in order. */
  datatype Tally = Tally(changed: nat, failures: nat, calls: seq<string>)

  /** One turn of the loop: a settled app is skipped; otherwise, in a dry
      run, it only counts as changed; else the call is made and counts as a
      change, or as a failure when it raises. */
  function Step(t: Tally, app: App, action: Action, dryRun: bool, failing: set<string>): Tally {
    if IsSettled(app, action) then t
    else if dryRun then Tally(t.changed + 1, t.failures, t.calls)
    else if app.name in failing then Tally(t.changed, t.failures + 1, t.calls + [app.name])
    else Tally(t.changed + 1, t.failures, t.calls + [app.name])
  }

  /** The loop over the targets, in order. */
  function RunLoop(targets: seq<App>, action: Action, dryRun: bool, failing: set<string>): Tally {
    if targets == [] then Tally(0, 0, [])
    else
      var n := |targets| - 1;
      Step(RunLoop(targets[..n], action, dryRun, failing), targets[n], action, dryRun, failing)
  }

  /** The names of the targets not yet settled for the action, in order. */
  function Pending(targets: seq<App>, action: Action): (r: seq<string>)
    ensures |r| <= |targets|
  {
    if targets == [] then []
    else
      var n := |targets| - 1;
      Pending(targets[..n], action) + (if IsSettled(targets[n], action) then [] else [targets[n].name])
  }

  /** How many of `names` are in `s`. */
  function CountIn(names: seq<string>, s: set<string>): (r: nat)
    ensures r <= |names|
  {
    if names == [] then 0
    else CountIn(names[..|names| - 1], s) + (if names[|names| - 1] in s then 1 else 0)
  }

  /** A pending name is the name of a target that is not settled, and every
      such target yields one. */
  lemma {:induction false} PendingSpec(targets: seq<App>, action: Action)
    ensures forall x :: x in Pending(targets, action) <==> Unsettled(targets, action, x)
  {
    if targets != [] {
      var n := |targets| - 1;
      PendingSpec(targets[..n], action);
      forall x ensures x in Pending(targets, action) <==> Unsettled(targets, action, x) {
        UnsettledPrefix(targets, action, x);
      }
    }
  }

  /** Some target called `x` is not settled for the action. */
  predicate Unsettled(targets: seq<App>, action: Action, x: string) {
    exists i :: 0 <= i < |targets| && targets[i].name == x && !IsSettled(targets[i], action)
  }

  lemma UnsettledPrefix(targets: seq<App>, action: Action, x: string)
    requires targets != []
    ensures var n := |targets| - 1;
      Unsettled(targets, action, x) <==>
        Unsettled(targets[..n], action, x) || (targets[n].name == x && !IsSettled(targets[n], action))
  {
    var n := |targets| - 1;
    var p := targets[..n];
    if Unsettled(p, action, x) {
      var i :| 0 <= i < |p| && p[i].name == x && !IsSettled(p[i], action);
      assert targets[i] == p[i];
    }
    if Unsettled(targets, action, x) {
      var i :| 0 <= i < |targets| && targets[i].name == x && !IsSettled(targets[i], action);
      if i < n {
        assert p[i] == targets[i];
      }
    }
  }

  /** The loop's accounting: every target is changed, failed or skipped;
      outside a dry run exactly the pending apps are called, in target
      order, and the failures are the pending apps whose call raises; a dry
      run calls nothing and counts every pending app as changed. */
  lemma {:induction false} RunLoopSpec(targets: seq<App>, action: Action, dryRun: bool, failing: set<string>)
    ensures var t := RunLoop(targets, action, dryRun, failing);
      && t.changed + t.failures + (|targets| - |Pending(targets, action)|) == |targets|
      && t.calls == (if dryRun then [] else Pending(targets, action))
      && t.failures == (if dryRun then 0 else CountIn(Pending(targets, action), failing))
      && t.changed == |Pending(targets, action)| - t.failures
  {
    if targets != [] {
      var n := |targets| - 1;
      RunLoopSpec(targets[..n], action, dryRun, failing);
      var pending := Pending(targets[..n], action);
      if !IsSettled(targets[n], action) {
        var next := pending + [targets[n].name];
        assert next[..|next| - 1] == pending;
      }
    }
  }

  // ---------------------------------------------------------------------
  // The reconciliation section of `main`

  /** What `main` reports from line 381 on. `calls` are the names passed to
      the start call (for `start`) or the stop call (for `stop`). */
  datatype Outcome = Outcome(
    exitCode: int,
    changed: nat,
    evaluated: nat,
    failures: nat,
    missing: seq<string>,
    calls: seq<string>)

  /** The reconciliation: a setup failure (no SDK, no client, or a listing
      that raises) exits with 2; missing apps exit with 1 unless ignored;
      no targets exit with 0 when missing apps are ignored and 1 otherwise;
      else the loop runs and the exit code is 1 exactly when a call raised. */
  function Reconcile(listing: seq<App>, failing: set<string>, action: Action, names: seq<string>,
                     dryRun: bool, ignoreMissing: bool, setupFailed: bool): Outcome
  {
    if setupFailed then Outcome(2, 0, 0, 1, [], [])
    else
      var lookup := ByName(listing);
      var targets := Found(lookup, names);
      var missing := Missing(lookup, names);
      if |missing| > 0 && !ignoreMissing then Outcome(1, 0, |targets|, 0, missing, [])
      else if |targets| == 0 then Outcome(if ignoreMissing then 0 else 1, 0, 0, 0, missing, [])
      else
        var t := RunLoop(targets, action, dryRun, failing);
        Outcome(if t.failures > 0 then 1 else 0, t.changed, |targets|, t.failures, missing, t.calls)
  }

  /** The number of requested names that the listing has. */
  function FoundCount(listing: seq<App>, names: seq<string>): (r: nat)
    ensures r <= |names|
  {
    if names == [] then 0
    else FoundCount(listing, names[..|names| - 1]) + (if LastIndex(listing, names[|names| - 1]) >= 0 then 1 else 0)
  }

  /** The number of targets is the number of requested names the listing
      has. */
  lemma {:induction false} FoundCountSpec(listing: seq<App>, names: seq<string>)
    ensures |Found(ByName(listing), names)| == FoundCount(listing, names)
  {
    if names != [] {
      ByNameSpec(listing);
      FoundCountSpec(listing, names[..|names| - 1]);
    }
  }

  /** The exit codes: 2 exactly on a setup failure; on missing apps that are
      not ignored, 1 with no call, nothing changed, no failure, and as many
      apps evaluated as were found; with no target, no call and 0 exactly
      when missing apps are ignored; otherwise 1 exactly when a call raised. */
  lemma ReconcileExits(listing: seq<App>, failing: set<string>, action: Action, names: seq<string>,
                       dryRun: bool, ignoreMissing: bool, setupFailed: bool)
    ensures var o := Reconcile(listing, failing, action, names, dryRun, ignoreMissing, setupFailed);
      && (o.exitCode == 2 <==> setupFailed)
      && (setupFailed ==> o == Outcome(2, 0, 0, 1, [], []))
      && (!setupFailed ==> o.missing == Missing(ByName(listing), names))
      && (!setupFailed && o.missing != [] && !ignoreMissing ==>
            o.exitCode == 1 && o.calls == [] && o.changed == 0 && o.failures == 0
            && o.evaluated == FoundCount(listing, names))
      && (!setupFailed && (o.missing == [] || ignoreMissing) && FoundCount(listing, names) == 0 ==>
            o.calls == [] && o.evaluated == 0 && (o.exitCode == 0 <==> ignoreMissing))
      && (!setupFailed && (o.missing == [] || ignoreMissing) && FoundCount(listing, names) > 0 ==>
            o.evaluated == FoundCount(listing, names) && (o.exitCode == 1 <==> o.failures > 0)
            && (o.exitCode == 0 <==> o.failures == 0))
  {
    FoundCountSpec(listing, names);
  }

  /** When none of the requested names is found, every one of them is
      missing. As `main` always requests at least one name, its no-target
      exit with code `1` is never reached without missing apps, which the
      earlier exit reports first. */
  lemma NoTargetsMeansAllMissing(listing: seq<App>, names: seq<string>)
    requires names != []
    ensures |Found(ByName(listing), names)| == 0 ==> Missing(ByName(listing), names) == names
  {
    var lookup := ByName(listing);
    SelectSpec(lookup, names);
    if |Found(lookup, names)| == 0 {
      MissingAll(lookup, names);
    }
  }

  lemma {:induction false} MissingAll(lookup: map<string, App>, names: seq<string>)
    requires |Found(lookup, names)| == 0
    ensures Missing(lookup, names) == names
  {
    if names != [] {
      var n := |names| - 1;
      MissingAll(lookup, names[..n]);
      assert names == names[..n] + [names[n]];
    }
  }

  /** The loop path in full: every target is changed, failed or skipped;
      outside a dry run exactly the unsettled targets are called, in
      request order, and a failure is an unsettled target whose call
      raises; a dry run calls nothing. */
  lemma ReconcileLoop(listing: seq<App>, failing: set<string>, action: Action, names: seq<string>,
                      dryRun: bool, ignoreMissing: bool)
    requires Missing(ByName(listing), names) == [] || ignoreMissing
    requires |Found(ByName(listing), names)| > 0
    ensures var o := Reconcile(listing, failing, action, names, dryRun, ignoreMissing, false);
      var targets := Found(ByName(listing), names);
      var pending := Pending(targets, action);
      && o.evaluated == |targets|
      && o.changed + o.failures + (|targets| - |pending|) == o.evaluated
      && o.calls == (if dryRun then [] else pending)
      && o.failures == (if dryRun then 0 else CountIn(pending, failing))
      && (o.exitCode == 1 <==> o.failures > 0)
  {
    RunLoopSpec(Found(ByName(listing), names), action, dryRun, failing);
  }

  /** Reconciling an already settled workspace does nothing: when every
      target is in a terminal state for the action, no call is made and no
      app changes or fails; the exit code is 0 unless there is no target, or
      an app is missing, and missing apps are not ignored. */
  lemma ReconcileSettled(listing: seq<App>, failing: set<string>, action: Action, names: seq<string>,
                         dryRun: bool, ignoreMissing: bool)
    requires Missing(ByName(listing), names) == [] || ignoreMissing
    requires forall t :: t in Found(ByName(listing), names) ==> IsSettled(t, action)
    ensures var o := Reconcile(listing, failing, action, names, dryRun, ignoreMissing, false);
      o.calls == [] && o.changed == 0 && o.failures == 0 && (o.exitCode == 0 <==> (|o.missing| == 0 || ignoreMissing) && (o.evaluated > 0 || ignoreMissing))
  {
    var targets := Found(ByName(listing), names);
    SettledLoop(targets, action, dryRun, failing);
  }

  lemma {:induction false} SettledLoop(targets: seq<App>, action: Action, dryRun: bool, failing: set<string>)
    requires forall t :: t in targets ==> IsSettled(t, action)
    ensures RunLoop(targets, action, dryRun, failing) == Tally(0, 0, [])
  {
    if targets != [] {
      var n := |targets| - 1;
      assert targets[n] in targets;
      forall t | t in targets[..n] ensures IsSettled(t, action) {
        assert t in targets;
      }
      SettledLoop(targets[..n], action, dryRun, failing);
    }
  }

  /** The dry-run example of the tool's tests, for any app name: one app in
      state `STOPPED`, action `start`: one change, one app evaluated, exit
      code 0, and no call made. */
  lemma DryRunExample(appName: string)
    ensures var o := Reconcile([App(appName, Some(Named("STOPPED")))], {}, Start, [appName], true, false, false);
      o.exitCode == 0 && o.changed == 1 && o.evaluated == 1 && o.failures == 0 && o.calls == [] && o.missing == []
  {
    var app := App(appName, Some(Named("STOPPED")));
    var listing := [app];
    assert ByName(listing) == map[appName := app] by {
      assert listing[..0] == [];
    }
    var names := [appName];
    assert names[..0] == [];
    assert Found(ByName(listing), names) == [app];
    assert Missing(ByName(listing), names) == [];
    assert StateName(app) == "STOPPED" by {
      UpperOfUpper("STOPPED");
    }
    assert !IsSettled(app, Start) by {
      assert "STOPPED"[2] == 'O';
      assert "STOPPED" != "ACTIVE" && "STOPPED" != "STARTING";
    }
    assert [app][..0] == [];
    var t := RunLoop([app], Start, true, {});
    assert t == Step(RunLoop([], Start, true, {}), app, Start, true, {});
    assert Step(Tally(0, 0, []), app, Start, true, {}) == Tally(1, 0, []);
    assert t == Tally(1, 0, []);
    var o := Reconcile(listing, {}, Start, names, true, false, false);
    assert o == Outcome(0, 1, 1, 0, [], []);
  }

  lemma UpperOfUpper(s: string)
    requires NoLowerCase(s)
    ensures Upper(s) == s
  {
  }

  // ---------------------------------------------------------------------
  // The summary record: `_summary_payload`

  /** The parsed options the summary reports. */
  datatype Args = Args(
    mode: ActionMode,
    dryRun: bool,
    startHour: int,
    endHour: int,
    output: string,
    timezone: string,
    ignoreMissingApps: bool)

  /** The summary record, one field per key of the JSON object; the
      `active_days` key is present only when `activeDays` is `Some`. */
  datatype Payload = Payload(
    action: Action,
    actionMode: ActionMode,
    appsChanged: int,
    appsEvaluated: int,
    appsRequested: seq<string>,
    dryRun: bool,
    endHour: int,
    exitCode: int,
    failures: int,
    missingApps: seq<string>,
    output: string,
    startHour: int,
    timeLocal: string,
    timezone: string,
    activeDays: Option<seq<int>>)

  /** The least element of a non-empty set. */
  function Least(s: set<int>): (m: int)
    requires s != {}
    ensures m in s && forall x :: x in s ==> m <= x
  {
    LeastExists(s);
    var m :| m in s && forall x :: x in s ==> m <= x;
    m
  }

  lemma {:induction false} LeastExists(s: set<int>)
    requires s != {}
    ensures exists m :: m in s && forall x :: x in s ==> m <= x
    decreases |s|
  {
    if forall y :: y !in s {
      assert false;
    }
    var y :| y in s;
    var rest := s - {y};
    if rest == {} {
      forall x | x in s ensures y <= x {
        assert x !in rest;
      }
    } else {
      LeastExists(rest);
      var m :| m in rest && forall x :: x in rest ==> m <= x;
      var least := if y < m then y else m;
      forall x | x in s ensures least <= x {
        if x != y {
          assert x in rest;
        }
      }
      assert least in s;
    }
  }

  /** `sorted(s)`: the elements of `s` in increasing order. */
  function Sorted(s: set<int>): (r: seq<int>)
    ensures forall x :: x in r <==> x in s
    ensures forall i, j :: 0 <= i < j < |r| ==> r[i] < r[j]
    decreases |s|
  {
    if s == {} then []
    else
      var m := Least(s);
      var rest := Sorted(s - {m});
      assert forall i :: 0 <= i < |rest| ==> m < rest[i] by {
        forall i | 0 <= i < |rest| ensures m < rest[i] {
          assert rest[i] in s - {m};
        }
      }
      [m] + rest
  }

  /** `_summary_payload`: the report record; `active_days` is reported,
      sorted, only when it was computed. */
  function SummaryPayload(action: Action, args: Args, timeLocal: string, appNames: seq<string>,
                          changed: int, evaluated: int, exitCode: int, failures: int,
                          missing: seq<string>, activeDays: Option<set<int>>): (p: Payload)
    ensures p.activeDays.Some? <==> activeDays.Some?
    ensures activeDays.Some? ==> forall x :: x in p.activeDays.value <==> x in activeDays.value
    ensures activeDays.Some? ==> forall i, j :: 0 <= i < j < |p.activeDays.value| ==>
      p.activeDays.value[i] < p.activeDays.value[j]
  {
    Payload(
      action := action,
      actionMode := args.mode,
      appsChanged := changed,
      appsEvaluated := evaluated,
      appsRequested := appNames,
      dryRun := args.dryRun,
      endHour := args.endHour,
      exitCode := exitCode,
      failures := failures,
      missingApps := missing,
      output := args.output,
      startHour := args.startHour,
      timeLocal := timeLocal,
      timezone := args.timezone,
      activeDays := if activeDays.Some? then Some(Sorted(activeDays.value)) else None)
  }

  /** The summary reports weekdays only for an automatic run: a forced
      action is decided without them. */
  lemma ReportedDaysOnlyInAuto(args: Args, now: Instant, rawDays: string, timeLocal: string,
                               appNames: seq<string>, changed: int, evaluated: int, exitCode: int,
                               failures: int, missing: seq<string>)
    requires Decide(args.mode, now, args.startHour, args.endHour, rawDays).Ok?
    ensures var (action, days) := Decide(args.mode, now, args.startHour, args.endHour, rawDays).value;
      var p := SummaryPayload(action, args, timeLocal, appNames, changed, evaluated, exitCode, failures, missing, days);
      && p.actionMode == args.mode
      && (p.activeDays.Some? <==> args.mode == Auto)
  {
  }

  /** The summary of the dry-run example of the tool's tests: `--action
      start --dry-run` reports the action `start`, the forced mode, the dry
      run, one app changed, exit code 0 and no weekday list. */
  lemma DryRunSummary(appName: string, args: Args, now: Instant, rawDays: string, timeLocal: string)
    requires args.mode == ForceStart && args.dryRun
    ensures Decide(args.mode, now, args.startHour, args.endHour, rawDays).Ok?
    ensures var (action, days) := Decide(args.mode, now, args.startHour, args.endHour, rawDays).value;
      var o := Reconcile([App(appName, Some(Named("STOPPED")))], {}, action, [appName], args.dryRun, false, false);
      var p := SummaryPayload(action, args, timeLocal, [appName], o.changed, o.evaluated, o.exitCode, o.failures, o.missing, days);
      && p.action == Start && p.actionMode == ForceStart && p.dryRun
      && p.exitCode == 0 && p.appsChanged == 1 && p.appsEvaluated == 1 && p.failures == 0
      && p.missingApps == [] && p.activeDays == None
  {
    DryRunExample(appName);
  }

  /** The reported weekdays are weekday numbers, and there is one at least
      when a weekday was active. */
  lemma SortedDays(days: set<int>)
    requires days != {} && days <= ALL_DAYS
    ensures Sorted(days) != []
    ensures forall i :: 0 <= i < |Sorted(days)| ==> 0 <= Sorted(days)[i] <= 6
  {
    var r := Sorted(days);
    forall i | 0 <= i < |r| ensures 0 <= r[i] <= 6 {
      assert r[i] in days;
    }
    var x :| x in days;
    assert x in r;
  }

  /** The reported weekdays, written back as a comma-separated list, parse
      to the weekdays that were used. */
  lemma ReportedDaysRoundTrip(days: set<int>)
    requires days != {} && days <= ALL_DAYS
    ensures ActiveDays(Join(Numerals(Sorted(days)), ',')) == Ok(days)
  {
    var r := Sorted(days);
    SortedDays(days);
    ElementsOfListing(r, days);
    ActiveDaysOfNumerals(r);
  }

  /** One turn of the loop in `main`: skip an app already in a terminal
      state; else count it as changed in a dry run, or make the call and
      count a change or, when the call raises, a failure. */
  method Visit(api: AppsApi, app: App, action: Action, dryRun: bool, terminalStates: set<string>,
               updated: nat, failures: nat, ghost calls: seq<string>,
               ghost started0: seq<string>, ghost stopped0: seq<string>)
    returns (updated': nat, failures': nat, ghost calls': seq<string>)
    requires terminalStates == TerminalStates(action)
    requires api.started == started0 + (if action == Start then calls else [])
    requires api.stopped == stopped0 + (if action == Stop then calls else [])
    modifies api
    ensures Tally(updated', failures', calls') == Step(Tally(updated, failures, calls), app, action, dryRun, api.failing)
    ensures api.started == started0 + (if action == Start then calls' else [])
    ensures api.stopped == stopped0 + (if action == Stop then calls' else [])
  {
    updated', failures', calls' := updated, failures, calls;
    var state := StateName(app);
    if state !in terminalStates {
      if !dryRun {
        var ok;
        if action == Start {
          ok := api.StartAndWait(app.name);
        } else {
          ok := api.StopAndWait(app.name);
        }
        calls' := calls + [app.name];
        if ok {
          updated' := updated + 1;
        } else {
          failures' := failures + 1;
        }
      } else {
        updated' := updated + 1;
      }
    }
  }

  /** The loop in `main` over the targets, in order: its counts and its
      calls are those of `RunLoop`, and each call is logged by the
      directory. */
  method RunTargets(api: AppsApi, targets: seq<App>, action: Action, dryRun: bool)
    returns (updated: nat, failures: nat, ghost calls: seq<string>)
    modifies api
    ensures Tally(updated, failures, calls) == RunLoop(targets, action, dryRun, api.failing)
    ensures api.started == old(api.started) + (if action == Start then calls else [])
    ensures api.stopped == old(api.stopped) + (if action == Stop then calls else [])
  {
    failures := 0;
    updated := 0;
    var terminalStates := TerminalStates(action);
    calls := [];
    ghost var started0, stopped0 := api.started, api.stopped;
    var i := 0;
    while i < |targets|
      invariant 0 <= i <= |targets|
      invariant RunLoop(targets[..i], action, dryRun, api.failing) == Tally(updated, failures, calls)
      invariant api.started == started0 + (if action == Start then calls else [])
      invariant api.stopped == stopped0 + (if action == Stop then calls else [])
    {
      assert targets[..i + 1][..i] == targets[..i];
      updated, failures, calls := Visit(api, targets[i], action, dryRun, terminalStates,
                                        updated, failures, calls, started0, stopped0);
      i := i + 1;
    }
    assert targets[..i] == targets;
  }

  /** `main` from line 381 on: select the targets, take the early exits,
      run the loop against the directory, and report. The action and the
      active days are those `Decide` produced; a setup failure is given as
      a flag. */
  method Run(api: AppsApi, action: Action, activeDays: Option<set<int>>, appNames: seq<string>,
             args: Args, timeLocal: string, setupFailed: bool) returns (exitCode: int, payload: Payload)
    modifies api
    ensures var o := Reconcile(api.apps, api.failing, action, appNames, args.dryRun, args.ignoreMissingApps, setupFailed);
      && exitCode == o.exitCode
      && payload == SummaryPayload(action, args, timeLocal, appNames, o.changed, o.evaluated, o.exitCode,
                                   o.failures, o.missing, activeDays)
      && api.started == old(api.started) + (if action == Start then o.calls else [])
      && api.stopped == old(api.stopped) + (if action == Stop then o.calls else [])
  {
    if setupFailed {
      exitCode := 2;
      payload := SummaryPayload(action, args, timeLocal, appNames, 0, 0, 2, 1, [], activeDays);
      return;
    }
    var targets, missing := SelectTargetApps(api, appNames);
    if |missing| > 0 && !args.ignoreMissingApps {
      exitCode := 1;
      payload := SummaryPayload(action, args, timeLocal, appNames, 0, |targets|, 1, 0, missing, activeDays);
      return;
    }
    if |targets| == 0 {
      exitCode := if args.ignoreMissingApps then 0 else 1;
      payload := SummaryPayload(action, args, timeLocal, appNames, 0, 0, exitCode, 0, missing, activeDays);
      return;
    }
    var updated, failures;
    ghost var calls;
    updated, failures, calls := RunTargets(api, targets, action, args.dryRun);
    exitCode := if failures > 0 then 1 else 0;
    payload := SummaryPayload(action, args, timeLocal, appNames, updated, |targets|, exitCode, failures, missing, activeDays);
  }
}
