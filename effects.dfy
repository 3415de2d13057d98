/**
 * The calls the taskbar manager makes on collaborators it does not own,
 * recorded as a log, and the discipline that keeps at most one taskbar
 * instance alive: an instance is only constructed when none is alive.
 */
module Effects {

  /** One call on a collaborator. Taskbar instances are named by a serial number. */
  datatype Effect =
    | Created(serial: nat)                            // new TaskbarActivityContext(...)
    | Destroyed(serial: nat)                          // TaskbarActivityContext.onDestroy()
    | TaskbarEnabledSet(enabled: bool)                // SystemUiProxy.setTaskbarEnabled
    | TaskbarStatusNotified(visible: bool, stashed: bool) // SystemUiProxy.notifyTaskbarStatus
    | WindowContextCreated(context: nat, displayId: int)  // Context.createWindowContext
    | ConfigurationForwarded(serial: nat, diff: bv32) // TaskbarActivityContext.onConfigurationChanged
    | NavBarElementsDisabled(serial: nat, displayId: int, state1: int, state2: int, animate: bool)
    | SystemBarAttributesForwarded(serial: nat, displayId: int, behavior: int)

  /** How one call changes the set of live instances. */
  function Step(live: set<nat>, e: Effect): set<nat> {
    match e
    case Created(n) => live + {n}
    case Destroyed(n) => live - {n}
    case _ => live
  }

  /** The instances constructed and not yet destroyed after `log`. */
  ghost function Live(log: seq<Effect>): set<nat>
    decreases |log|
  {
    if log == [] then {} else Step(Live(log[..|log| - 1]), log[|log| - 1])
  }

  /** Every construction in the log happens while no instance is alive. */
  ghost predicate CreatesOnlyWhenEmpty(log: seq<Effect>)
    decreases |log|
  {
    log == [] ||
    var init := log[..|log| - 1];
    CreatesOnlyWhenEmpty(init) && (log[|log| - 1].Created? ==> Live(init) == {})
  }

  /** Appending one call: how the live set moves and when the discipline is kept. */
  lemma LogSnoc(log: seq<Effect>, e: Effect)
    requires CreatesOnlyWhenEmpty(log)
    requires e.Created? ==> Live(log) == {}
    ensures Live(log + [e]) == Step(Live(log), e)
    ensures CreatesOnlyWhenEmpty(log + [e])
  {
    assert (log + [e])[..|log|] == log;
  }

  /** The discipline holds of every prefix of a log that keeps it. */
  lemma {:induction false} PrefixKeepsDiscipline(log: seq<Effect>, m: nat)
    requires CreatesOnlyWhenEmpty(log)
    requires m <= |log|
    ensures CreatesOnlyWhenEmpty(log[..m])
    decreases |log|
  {
    if m < |log| {
      var init := log[..|log| - 1];
      assert init[..m] == log[..m];
      PrefixKeepsDiscipline(init, m);
    } else {
      assert log[..m] == log;
    }
  }

  /** Under the discipline, nothing is alive where an instance is constructed. */
  lemma NothingLiveAtCreation(log: seq<Effect>, j: nat)
    requires CreatesOnlyWhenEmpty(log)
    requires j < |log| && log[j].Created?
    ensures Live(log[..j]) == {}
  {
    PrefixKeepsDiscipline(log, j + 1);
    var pre := log[..j + 1];
    assert pre[..j] == log[..j];
  }

  /** Under the discipline at most one instance is ever alive. */
  lemma {:induction false} AtMostOneLive(log: seq<Effect>)
    requires CreatesOnlyWhenEmpty(log)
    ensures |Live(log)| <= 1
    decreases |log|
  {
    if log != [] {
      var init := log[..|log| - 1];
      AtMostOneLive(init);
      var live := Live(init);
      var e := log[|log| - 1];
      match e
      case Created(n) =>
        assert live == {};
      case Destroyed(n) =>
        if live != {} {
          var m :| m in live;
          assert live == {m} by {
            assert |live - {m}| == |live| - 1;
          }
        }
      case _ =>
    }
  }

  /** Two instances never coexist: any two live serials are the same instance. */
  lemma {:induction false} NoTwoLive(log: seq<Effect>, a: nat, b: nat)
    requires CreatesOnlyWhenEmpty(log)
    requires a in Live(log) && b in Live(log)
    ensures a == b
  {
    AtMostOneLive(log);
    var rest := Live(log) - {a};
    assert |rest| == |Live(log)| - 1;
    assert rest == {};
  }

  /** An instance constructed at index i stays alive up to m unless destroyed in between. */
  lemma {:induction false} StaysLiveUntilDestroyed(log: seq<Effect>, i: nat, m: nat)
    requires i < m <= |log|
    requires log[i].Created?
    requires forall k :: i < k < m ==> log[k] != Destroyed(log[i].serial)
    ensures log[i].serial in Live(log[..m])
    decreases m
  {
    var pre := log[..m];
    assert pre[..m - 1] == log[..m - 1];
    if m > i + 1 {
      StaysLiveUntilDestroyed(log, i, m - 1);
    }
  }

  /**
   * The old instance is destroyed before a new one is built: between any two
   * constructions the first instance is destroyed.
   */
  lemma DestroyedBeforeRebuilt(log: seq<Effect>, i: nat, j: nat)
    requires CreatesOnlyWhenEmpty(log)
    requires i < j < |log|
    requires log[i].Created? && log[j].Created?
    ensures exists k :: i < k < j && log[k] == Destroyed(log[i].serial)
  {
    if forall k :: i < k < j ==> log[k] != Destroyed(log[i].serial) {
      StaysLiveUntilDestroyed(log, i, j);
      NothingLiveAtCreation(log, j);
      assert log[i].serial in Live(log[..j]);
    }
  }
}
