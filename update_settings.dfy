/**
 * The updateSettings handler: each entry of the "settings" payload names a
 * setting in the registry; the setting is updated with the value and the
 * session records the value as a capability of the same name.
 */
module UpdateSettingsHandler {
  import opened Common
  import opened Json
  import opened AppiumResponses
  import opened SettingsModel
  import opened SessionModel

  /** UnsupportedSettingException; its message text is not part of this model. */
  const UNSUPPORTED: Throwable := UiAutomator2(UnsupportedSetting, None)

  /** The registry entry a name denotes: the first in declaration order whose toString() equals it exactly. */
  function Lookup(name: string): (r: Option<Setting>)
    ensures r.Some? ==> r.value.Name() == name
  {
    LookupIn(name, ALL_SETTINGS)
  }

  function LookupIn(name: string, settings: seq<Setting>): (r: Option<Setting>)
    ensures r.Some? ==> r.value.Name() == name && r.value in settings
  {
    if settings == [] then None
    else if settings[0].Name() == name then Some(settings[0])
    else LookupIn(name, settings[1..])
  }

  /** A name is unknown exactly when no registry entry carries it. */
  lemma LookupNone(name: string)
    ensures Lookup(name).None? <==> forall j :: 0 <= j < |ALL_SETTINGS| ==> ALL_SETTINGS[j].Name() != name
  {
    LookupInNone(name, ALL_SETTINGS);
  }

  lemma {:induction false} LookupInNone(name: string, settings: seq<Setting>)
    ensures LookupIn(name, settings).None? <==> forall j :: 0 <= j < |settings| ==> settings[j].Name() != name
  {
    if settings != [] {
      LookupInNone(name, settings[1..]);
      assert forall j :: 1 <= j < |settings| ==> settings[j] == settings[1..][j - 1];
    }
  }

  /**
   * getSetting: a scan of Settings.values() for the first entry whose name
   * equals the given one; none matching raises UnsupportedSettingException.
   */
  method GetSetting(name: string) returns (r: Result<Setting, Throwable>)
    ensures r.Ok? ==> r.value.Name() == name
    ensures r.Err? <==> forall j :: 0 <= j < |ALL_SETTINGS| ==> ALL_SETTINGS[j].Name() != name
    ensures r.Err? ==> r.error == UNSUPPORTED
  {
    var i := 0;
    while i < |ALL_SETTINGS|
      invariant 0 <= i <= |ALL_SETTINGS|
      invariant forall j :: 0 <= j < i ==> ALL_SETTINGS[j].Name() != name
    {
      if ALL_SETTINGS[i].Name() == name {
        return Ok(ALL_SETTINGS[i]);
      }
      i := i + 1;
    }
    return Err(UNSUPPORTED);
  }

  /** Every setting is found under its own name: the lookup inverts Name(). */
  lemma LookupName(s: Setting)
    ensures Lookup(s.Name()) == Some(s)
  {
    RegistryComplete(s);
    LookupNone(s.Name());
    NameInjective(Lookup(s.Name()).value, s);
  }

  /** The outcome of one entry: the registry lookup, then the type-checked update. */
  function UpdateOne(entry: (string, JValue), applyError: string -> Option<Throwable>): (r: Result<Applied, Throwable>)
    ensures r.Err? <==> Lookup(entry.0).None? || !IsInstance(Lookup(entry.0).value.ValueType(), entry.1)
                         || !Swallowed(applyError(entry.0))
    ensures Lookup(entry.0).None? ==> r == Err(UNSUPPORTED)
  {
    match Lookup(entry.0)
    case None => Err(UNSUPPORTED)
    case Some(setting) => UpdateSetting(setting, entry.1, applyError(entry.0))
  }

  /** Which entries update without throwing, in order. */
  function Oks(entries: seq<(string, JValue)>, applyError: string -> Option<Throwable>): (oks: seq<bool>)
    ensures |oks| == |entries| && forall j :: 0 <= j < |entries| ==> oks[j] == UpdateOne(entries[j], applyError).Ok?
  {
    seq(|entries|, j requires 0 <= j < |entries| => UpdateOne(entries[j], applyError).Ok?)
  }

  /** The index of the first false, if any. */
  function FirstFalse(oks: seq<bool>): (k: Option<nat>)
    ensures k.None? <==> forall j :: 0 <= j < |oks| ==> oks[j]
    ensures k.Some? ==> (k.value < |oks| && !oks[k.value] && forall j :: 0 <= j < k.value ==> oks[j])
  {
    if oks == [] then None
    else if !oks[0] then Some(0)
    else
      var k := FirstFalse(oks[1..]);
      if k.None? then None else Some(k.value + 1)
  }

  lemma NoneFalseStep(oks: seq<bool>, i: nat)
    requires i < |oks| && FirstFalse(oks[..i]).None? && oks[i]
    ensures FirstFalse(oks[..i + 1]).None?
  {
    assert forall j :: 0 <= j < i ==> oks[..i][j] == oks[j];
    assert forall j :: 0 <= j < i + 1 ==> oks[..i + 1][j] == oks[j];
  }

  lemma PrefixAllOk(entries: seq<(string, JValue)>, applyError: string -> Option<Throwable>, i: nat)
    requires i <= |entries| && FirstFalse(Oks(entries, applyError)[..i]).None?
    ensures forall j :: 0 <= j < i ==> UpdateOne(entries[j], applyError).Ok?
  {
    var oks := Oks(entries, applyError);
    assert forall j :: 0 <= j < i ==> oks[..i][j] == oks[j];
  }

  /** The index of the first entry whose update throws, if any. */
  function FirstFailure(entries: seq<(string, JValue)>, applyError: string -> Option<Throwable>): (k: Option<nat>)
    ensures k.Some? ==> k.value < |entries|
  {
    FirstFalse(Oks(entries, applyError))
  }

  /** The first failure has every update before it succeed; there is none exactly when every update succeeds. */
  lemma FirstFailureMeaning(entries: seq<(string, JValue)>, applyError: string -> Option<Throwable>)
    ensures FirstFailure(entries, applyError).None? <==> forall j :: 0 <= j < |entries| ==> UpdateOne(entries[j], applyError).Ok?
    ensures FirstFailure(entries, applyError).Some? ==>
      (var k := FirstFailure(entries, applyError).value;
       UpdateOne(entries[k], applyError).Err? && forall j :: 0 <= j < k ==> UpdateOne(entries[j], applyError).Ok?)
  {
    var oks := Oks(entries, applyError);
  }

  /** The capability map after recording every entry in turn. */
  function Recorded(capabilities: map<string, JValue>, entries: seq<(string, JValue)>): map<string, JValue>
    decreases |entries|
  {
    if entries == [] then capabilities
    else Recorded(capabilities, entries[..|entries| - 1])[entries[|entries| - 1].0 := entries[|entries| - 1].1]
  }

  lemma RecordedStep(capabilities: map<string, JValue>, entries: seq<(string, JValue)>, i: nat)
    requires i < |entries|
    ensures Recorded(capabilities, entries[..i + 1]) == Recorded(capabilities, entries[..i])[entries[i].0 := entries[i].1]
  {
    assert entries[..i + 1][..i] == entries[..i];
  }

  /** Recording entries leaves a capability none of them names as it was. */
  lemma {:induction false} RecordedOther(capabilities: map<string, JValue>, entries: seq<(string, JValue)>, name: string)
    requires forall j :: 0 <= j < |entries| ==> entries[j].0 != name
    ensures (name in Recorded(capabilities, entries)) == (name in capabilities)
    ensures name in capabilities ==> Recorded(capabilities, entries)[name] == capabilities[name]
    decreases |entries|
  {
    if entries != [] {
      var init := entries[..|entries| - 1];
      assert forall j :: 0 <= j < |init| ==> init[j] == entries[j];
      RecordedOther(capabilities, init, name);
    }
  }

  /** Recording entries sets each named capability to the last value given for it. */
  lemma {:induction false} RecordedLast(capabilities: map<string, JValue>, entries: seq<(string, JValue)>, j: nat)
    requires j < |entries| && forall l :: j < l < |entries| ==> entries[l].0 != entries[j].0
    ensures entries[j].0 in Recorded(capabilities, entries)
    ensures Recorded(capabilities, entries)[entries[j].0] == entries[j].1
    decreases |entries|
  {
    var init := entries[..|entries| - 1];
    if j < |entries| - 1 {
      assert forall l :: 0 <= l < |init| ==> init[l] == entries[l];
      RecordedLast(capabilities, init, j);
    }
  }

  /**
   * What safeHandle does to the capabilities and what it answers: when every
   * entry updates, all are recorded and the answer is true; otherwise the
   * entries before the first failing one are recorded and its exception is thrown.
   */
  function Outcome(capabilities: map<string, JValue>, entries: seq<(string, JValue)>,
                   applyError: string -> Option<Throwable>): (map<string, JValue>, Result<JValue, Throwable>)
  {
    match FirstFailure(entries, applyError)
    case None => (Recorded(capabilities, entries), Ok(JBool(true)))
    case Some(k) =>
      FirstFailureMeaning(entries, applyError);
      (Recorded(capabilities, entries[..k]), Err(UpdateOne(entries[k], applyError).error))
  }

  /**
   * safeHandle: the entries are the payload's "settings" map in its iteration
   * order. The answer is a response with value true, or the exception that
   * stopped the loop, which SafeRequestHandler.handle then reports.
   */
  method SafeHandle(session: Session, sessionId: Option<string>, entries: seq<(string, JValue)>,
                    applyError: string -> Option<Throwable>) returns (r: Result<AppiumResponse, Throwable>)
    modifies session
    ensures (session.capabilities, if r.Ok? then Ok(JBool(true)) else Err(r.error))
      == Outcome(old(session.capabilities), entries, applyError)
    ensures r.Ok? ==> r.value == NewResponse(sessionId, Value(JBool(true)))
    ensures session.lastScrollData == old(session.lastScrollData)
  {
    var i := 0;
    while i < |entries|
      invariant 0 <= i <= |entries|
      invariant session.capabilities == Recorded(old(session.capabilities), entries[..i])
      invariant FirstFalse(Oks(entries, applyError)[..i]).None?
      invariant session.lastScrollData == old(session.lastScrollData)
    {
      var settingName, settingValue := entries[i].0, entries[i].1;
      var setting := GetSetting(settingName);
      if setting.Err? {
        LookupNone(settingName);
        PrefixAllOk(entries, applyError, i);
        FirstFailureAt(entries, applyError, i);
        return Err(setting.error);
      }
      assert Lookup(settingName) == Some(setting.value) by {
        LookupName(setting.value);
      }
      var updated := UpdateSetting(setting.value, settingValue, applyError(settingName));
      if updated.Err? {
        PrefixAllOk(entries, applyError, i);
        FirstFailureAt(entries, applyError, i);
        return Err(updated.error);
      }
      assert UpdateOne(entries[i], applyError).Ok?;
      NoneFalseStep(Oks(entries, applyError), i);
      RecordedStep(old(session.capabilities), entries, i);
      var _ := session.SetCapability(settingName, settingValue);
      i := i + 1;
    }
    assert entries[..i] == entries;
    PrefixAllOk(entries, applyError, i);
    FirstFailureMeaning(entries, applyError);
    return Ok(NewResponse(sessionId, Value(JBool(true))));
  }

  /** The first failure is the first index whose update fails once all before it succeeded. */
  lemma FirstFailureAt(entries: seq<(string, JValue)>, applyError: string -> Option<Throwable>, i: nat)
    requires i < |entries| && UpdateOne(entries[i], applyError).Err?
    requires forall j :: 0 <= j < i ==> UpdateOne(entries[j], applyError).Ok?
    ensures FirstFailure(entries, applyError) == Some(i)
  {
    FirstFailureMeaning(entries, applyError);
  }

  /**
   * When the update succeeds, every entry's value can be read back as a
   * capability (the last one given, for a name given twice); an unknown
   * setting name makes the update fail, and nothing from that entry on is stored.
   */
  lemma OutcomeRecords(capabilities: map<string, JValue>, entries: seq<(string, JValue)>,
                       applyError: string -> Option<Throwable>, j: nat)
    requires j < |entries| && forall l :: j < l < |entries| ==> entries[l].0 != entries[j].0
    ensures Outcome(capabilities, entries, applyError).1.Ok? ==>
      entries[j].0 in Outcome(capabilities, entries, applyError).0
      && Outcome(capabilities, entries, applyError).0[entries[j].0] == entries[j].1
    ensures Lookup(entries[j].0).None? ==> Outcome(capabilities, entries, applyError).1.Err?
    ensures Lookup(entries[j].0).None? && (forall l :: 0 <= l < j ==> UpdateOne(entries[l], applyError).Ok?) ==>
      Outcome(capabilities, entries, applyError).1 == Err(UNSUPPORTED)
  {
    FirstFailureMeaning(entries, applyError);
    if FirstFailure(entries, applyError).None? {
      RecordedLast(capabilities, entries, j);
    }
    if Lookup(entries[j].0).None? && forall l :: 0 <= l < j ==> UpdateOne(entries[l], applyError).Ok? {
      FirstFailureAt(entries, applyError, j);
    }
  }

  /** On failure, the entry that threw and every entry after it are left out of the capabilities. */
  lemma OutcomeStopsAtFailure(capabilities: map<string, JValue>, entries: seq<(string, JValue)>,
                              applyError: string -> Option<Throwable>, k: nat)
    requires FirstFailure(entries, applyError) == Some(k)
    ensures Outcome(capabilities, entries, applyError) == (Recorded(capabilities, entries[..k]), Err(UpdateOne(entries[k], applyError).error))
    ensures forall name :: (forall l :: 0 <= l < k ==> entries[l].0 != name) ==>
      ((name in Outcome(capabilities, entries, applyError).0) == (name in capabilities))
  {
    FirstFailureMeaning(entries, applyError);
    forall name | forall l :: 0 <= l < k ==> entries[l].0 != name
      ensures (name in Recorded(capabilities, entries[..k])) == (name in capabilities)
    {
      RecordedOther(capabilities, entries[..k], name);
    }
  }

  /** A successful call answers 200 OK with the value true. */
  lemma SuccessIsOk(sessionId: Option<string>)
    ensures NewResponse(sessionId, Value(JBool(true))).httpStatus == HTTP_OK
  {
  }
}
