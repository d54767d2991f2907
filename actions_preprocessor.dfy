/**
 * ActionsPreprocessor: validation of a W3C action chain and removal of
 * `pointerCancel` items (W3C WebDriver Recommendation, section 17.4).
 *
 * `preprocessActionItems` walks the items of one source backwards with a
 * skip flag and then reverses what it kept; `preprocess` checks every action
 * in order and overwrites each action's item list in place. Both are modelled
 * as methods proved equal to fold functions (`ScanFrom`, `PreprocessUpTo`),
 * and the folds are related to independent descriptions of the accepted
 * chains (`ActionValid`, `PrefixValid`) and of the surviving items
 * (`Survives`, `SurvivorsFrom`).
 */
module ActionsPreprocessor {
  import opened Common
  import opened ActionsData

  predicate IsCancel(item: Item)
  {
    item.itemType == Some(ITEM_POINTER_CANCEL)
  }

  /** The item types a source type accepts; None for a source type outside ACTION_TYPES. */
  function AllowedItemTypes(actionType: string): (r: Option<seq<string>>)
    ensures r.Some? <==> actionType in ACTION_TYPES
    ensures actionType == ACTION_TYPE_NONE ==> r == Some([ITEM_PAUSE])
    ensures r.Some? ==> ITEM_PAUSE in r.value
    ensures r.Some? && ITEM_POINTER_CANCEL in r.value ==> actionType == ACTION_TYPE_POINTER
  {
    if actionType == ACTION_TYPE_POINTER then Some(POINTER_ITEM_TYPES)
    else if actionType == ACTION_TYPE_KEY then Some(KEY_ITEM_TYPES)
    else if actionType == ACTION_TYPE_NONE then Some(NONE_ITEM_TYPES)
    else None
  }

  // -----------------------------------------------------------------------
  // preprocessActionItems
  // -----------------------------------------------------------------------

  /** The backward loop's state: the items kept so far (last item first) and the skip flag. */
  datatype Scan = Scan(kept: seq<Item>, skipNext: bool)

  /** One turn of the backward loop. */
  function ScanStep(actionId: string, actionType: string, st: Scan, item: Item): Result<Scan, ActionsError>
  {
    if item.itemType.None? then Err(Parse(MissingItemType(actionId)))
    else
      var allowed := AllowedItemTypes(actionType);
      if allowed.None? then Err(Parse(UnknownActionType(actionId, actionType)))
      else if item.itemType.value !in allowed.value then
        Err(Parse(ItemTypeNotAllowed(actionId, actionType, item.itemType.value)))
      else if item.itemType.value == ITEM_POINTER_CANCEL then Ok(Scan(st.kept, true))
      else if st.skipNext then Ok(Scan(st.kept, false))
      else Ok(Scan(st.kept + [item], false))
  }

  /** The loop state once the items from the last one down to index i have been visited. */
  function ScanFrom(actionId: string, actionType: string, items: seq<Item>, i: nat): Result<Scan, ActionsError>
    requires i <= |items|
    decreases |items| - i
  {
    if i == |items| then Ok(Scan([], false))
    else
      match ScanFrom(actionId, actionType, items, i + 1)
      case Err(e) => Err(e)
      case Ok(st) => ScanStep(actionId, actionType, st, items[i])
  }

  function Reversed<T>(s: seq<T>): (r: seq<T>)
    ensures |r| == |s|
  {
    if s == [] then [] else Reversed(s[1..]) + [s[0]]
  }

  /** The result of preprocessActionItems. */
  function PreprocessItems(actionId: string, actionType: string, items: seq<Item>): Result<seq<Item>, ActionsError>
  {
    match ScanFrom(actionId, actionType, items, 0)
    case Err(e) => Err(e)
    case Ok(st) => Ok(Reversed(st.kept))
  }

  lemma {:induction false} ScanErrorSticks(actionId: string, actionType: string, items: seq<Item>, i: nat, k: nat)
    requires k <= i <= |items| && ScanFrom(actionId, actionType, items, i).Err?
    ensures ScanFrom(actionId, actionType, items, k) == ScanFrom(actionId, actionType, items, i)
    decreases i - k
  {
    if k < i {
      ScanErrorSticks(actionId, actionType, items, i, k + 1);
    }
  }

  method PreprocessActionItems(actionId: string, actionType: string, actionItems: seq<Item>)
    returns (r: Result<seq<Item>, ActionsError>)
    ensures r == PreprocessItems(actionId, actionType, actionItems)
  {
    var processedItems: seq<Item> := [];
    var shouldSkipNextItem := false;
    var i := |actionItems| - 1;
    while i >= 0
      invariant -1 <= i < |actionItems|
      invariant ScanFrom(actionId, actionType, actionItems, i + 1) == Ok(Scan(processedItems, shouldSkipNextItem))
    {
      var actionItem := actionItems[i];
      if actionItem.itemType.None? {
        r := Err(Parse(MissingItemType(actionId)));
        ScanErrorSticks(actionId, actionType, actionItems, i, 0);
        return;
      }
      var actionItemType := actionItem.itemType.value;
      var allowedItemTypes: seq<string>;
      if actionType == ACTION_TYPE_POINTER {
        allowedItemTypes := POINTER_ITEM_TYPES;
      } else if actionType == ACTION_TYPE_KEY {
        allowedItemTypes := KEY_ITEM_TYPES;
      } else if actionType == ACTION_TYPE_NONE {
        allowedItemTypes := NONE_ITEM_TYPES;
      } else {
        r := Err(Parse(UnknownActionType(actionId, actionType)));
        ScanErrorSticks(actionId, actionType, actionItems, i, 0);
        return;
      }
      if actionItemType !in allowedItemTypes {
        r := Err(Parse(ItemTypeNotAllowed(actionId, actionType, actionItemType)));
        ScanErrorSticks(actionId, actionType, actionItems, i, 0);
        return;
      }
      if actionItemType == ITEM_POINTER_CANCEL {
        shouldSkipNextItem := true;
      } else if shouldSkipNextItem {
        shouldSkipNextItem := false;
      } else {
        processedItems := processedItems + [actionItem];
      }
      i := i - 1;
    }

    var result: seq<Item> := [];
    var j := |processedItems| - 1;
    while j >= 0
      invariant -1 <= j < |processedItems|
      invariant result == Reversed(processedItems[j + 1..])
    {
      assert processedItems[j..][1..] == processedItems[j + 1..];
      result := result + [processedItems[j]];
      j := j - 1;
    }
    r := Ok(result);
  }

  // -----------------------------------------------------------------------
  // What preprocessActionItems computes, stated independently
  // -----------------------------------------------------------------------

  /** An item is allowed for its source type when it has a type from that source's list. */
  predicate ItemAllowed(actionType: string, item: Item)
  {
    item.itemType.Some? && AllowedItemTypes(actionType).Some?
    && item.itemType.value in AllowedItemTypes(actionType).value
  }

  /** An item survives when it is not a cancel and is not directly followed by a cancel. */
  predicate Survives(items: seq<Item>, k: nat)
    requires k < |items|
  {
    !IsCancel(items[k]) && (k + 1 == |items| || !IsCancel(items[k + 1]))
  }

  /** The surviving items of items[i..], in their original order. */
  function SurvivorsFrom(items: seq<Item>, i: nat): seq<Item>
    requires i <= |items|
    decreases |items| - i
  {
    if i == |items| then []
    else (if Survives(items, i) then [items[i]] else []) + SurvivorsFrom(items, i + 1)
  }

  /**
   * A non-cancel item is dropped exactly when it is the nearest non-cancel
   * item before some pointerCancel.
   */
  lemma DroppedIffNearestBeforeCancel(items: seq<Item>, k: nat)
    requires k < |items| && !IsCancel(items[k])
    ensures !Survives(items, k) <==>
      exists j :: k < j < |items| && IsCancel(items[j]) && forall m :: k < m < j ==> IsCancel(items[m])
  {
    if !Survives(items, k) {
      assert k + 1 < |items| && IsCancel(items[k + 1]);
    }
  }

  lemma {:induction false} ReversedCons<T>(x: T, s: seq<T>)
    ensures Reversed([x] + s) == Reversed(s) + [x]
  {
    assert ([x] + s)[1..] == s;
  }

  lemma {:induction false} ReversedAppend<T>(a: seq<T>, b: seq<T>)
    ensures Reversed(a + b) == Reversed(b) + Reversed(a)
    decreases |a|
  {
    if a == [] {
      assert a + b == b;
    } else {
      assert (a + b)[1..] == a[1..] + b;
      ReversedAppend(a[1..], b);
    }
  }

  lemma {:induction false} ReversedTwice<T>(s: seq<T>)
    ensures Reversed(Reversed(s)) == s
    decreases |s|
  {
    if s != [] {
      ReversedAppend(Reversed(s[1..]), [s[0]]);
      ReversedTwice(s[1..]);
      assert Reversed([s[0]]) == [s[0]];
    }
  }

  /** The backward scan accepts exactly the item lists whose items are all allowed, and keeps the survivors. */
  lemma {:induction false} ScanFromMeaning(actionId: string, actionType: string, items: seq<Item>, i: nat)
    requires i <= |items|
    ensures ScanFrom(actionId, actionType, items, i).Ok? <==>
      forall k :: i <= k < |items| ==> ItemAllowed(actionType, items[k])
    ensures ScanFrom(actionId, actionType, items, i).Ok? ==>
      ScanFrom(actionId, actionType, items, i).value
        == Scan(Reversed(SurvivorsFrom(items, i)), i < |items| && IsCancel(items[i]))
    decreases |items| - i
  {
    if i < |items| {
      ScanFromMeaning(actionId, actionType, items, i + 1);
      var head := if Survives(items, i) then [items[i]] else [];
      ReversedAppend(head, SurvivorsFrom(items, i + 1));
    }
  }

  /**
   * preprocessActionItems fails exactly when some item has no type or a type
   * its source type does not allow; otherwise it returns the survivors, in order.
   */
  lemma PreprocessItemsMeaning(actionId: string, actionType: string, items: seq<Item>)
    ensures PreprocessItems(actionId, actionType, items).Ok? <==>
      forall k :: 0 <= k < |items| ==> ItemAllowed(actionType, items[k])
    ensures PreprocessItems(actionId, actionType, items).Ok? ==>
      PreprocessItems(actionId, actionType, items).value == SurvivorsFrom(items, 0)
  {
    ScanFromMeaning(actionId, actionType, items, 0);
    if ScanFrom(actionId, actionType, items, 0).Ok? {
      ReversedTwice(SurvivorsFrom(items, 0));
    }
  }

  /** Without cancels every item survives, so the list comes back unchanged. */
  lemma {:induction false} NoCancelAllSurvive(items: seq<Item>, i: nat)
    requires i <= |items|
    requires forall k :: 0 <= k < |items| ==> !IsCancel(items[k])
    ensures SurvivorsFrom(items, i) == items[i..]
    decreases |items| - i
  {
    if i < |items| {
      NoCancelAllSurvive(items, i + 1);
      assert items[i..] == [items[i]] + items[i + 1..];
    }
  }

  /** Every surviving item comes from the input list and is not a cancel. */
  lemma {:induction false} SurvivorsAreInputItems(items: seq<Item>, i: nat)
    requires i <= |items|
    ensures forall x :: x in SurvivorsFrom(items, i) ==> x in items[i..] && !IsCancel(x)
    decreases |items| - i
  {
    if i < |items| {
      SurvivorsAreInputItems(items, i + 1);
      assert items[i..] == [items[i]] + items[i + 1..];
    }
  }

  // -----------------------------------------------------------------------
  // preprocess
  // -----------------------------------------------------------------------

  /**
   * The progress of `preprocess` over the array: the ids and pointer types
   * collected so far and the array contents, or the exception raised and the
   * array contents at that moment (earlier actions are already rewritten).
   */
  datatype Progress =
    | Running(ids: seq<string>, pointerTypes: set<string>, contents: seq<Action>)
    | Failed(error: ActionsError, contents: seq<Action>)

  function PointerTypeOf(a: Action): Option<string>
  {
    if a.parameters.Some? then a.parameters.value.pointerType else None
  }

  /**
   * The checks of one turn of the loop of `preprocess` and the rewritten
   * action, with its id and the pointer types seen once it is added.
   */
  function CheckAction(ids: seq<string>, pointerTypes: set<string>, a: Action): Result<(Action, string, set<string>), ActionsError>
  {
    if a.id.None? then Err(Parse(MissingActionId))
    else
      var id := a.id.value;
      if id in ids then Err(Parse(DuplicateActionId(id)))
      else if a.actionType.None? then Err(Parse(MissingActionType(id)))
      else
        var actionType := a.actionType.value;
        var pointerType := PointerTypeOf(a);
        if actionType !in ACTION_TYPES then Err(Parse(UnknownActionType(id, actionType)))
        else if pointerType.Some? && pointerType.value !in POINTER_TYPES then
          Err(Parse(UnknownPointerType(id, pointerType.value)))
        else if pointerType.Some? && actionType != ACTION_TYPE_POINTER then
          Err(Parse(PointerTypeOnNonPointer(id)))
        else if a.items.None? then Err(Parse(MissingItems(id)))
        else
          match PreprocessItems(id, actionType, a.items.value)
          case Err(e) => Err(e)
          case Ok(newItems) =>
            Ok((a.(items := Some(newItems)), id,
                if pointerType.Some? then pointerTypes + {pointerType.value} else pointerTypes))
  }

  /** One turn of the loop of `preprocess`, on the action at index i. */
  function ActionStep(p: Progress, i: nat): (q: Progress)
    requires p.Running? ==> i < |p.contents|
    ensures |q.contents| == |p.contents|
    ensures q.Running? ==> p.Running? && forall k :: 0 <= k < |p.contents| && k != i ==> q.contents[k] == p.contents[k]
    ensures q.Failed? ==> q.contents == p.contents
  {
    if p.Failed? then p
    else
      match CheckAction(p.ids, p.pointerTypes, p.contents[i])
      case Err(e) => Failed(e, p.contents)
      case Ok((a, id, pointerTypes)) => Running(p.ids + [id], pointerTypes, p.contents[i := a])
  }

  /** The progress after the loop has handled the first n actions. */
  function PreprocessUpTo(actions: seq<Action>, n: nat): (p: Progress)
    requires n <= |actions|
    ensures |p.contents| == |actions|
    ensures p.Running? ==> forall k :: n <= k < |actions| ==> p.contents[k] == actions[k]
  {
    if n == 0 then Running([], {}, actions) else ActionStep(PreprocessUpTo(actions, n - 1), n - 1)
  }

  /** The outcome of `preprocess`: the loop, then the single-pointer-type check. */
  function PreprocessOutcome(actions: seq<Action>): (p: Progress)
  {
    var p := PreprocessUpTo(actions, |actions|);
    if p.Running? && |p.pointerTypes| > 1 then Failed(Parse(SeveralPointerTypes(|p.pointerTypes|)), p.contents)
    else p
  }

  lemma {:induction false} FailureSticks(actions: seq<Action>, n: nat, m: nat)
    requires n <= m <= |actions| && PreprocessUpTo(actions, n).Failed?
    ensures PreprocessUpTo(actions, m) == PreprocessUpTo(actions, n)
    decreases m - n
  {
    if n < m {
      FailureSticks(actions, n, m - 1);
    }
  }

  /** Once the loop has failed, that failure is the outcome of `preprocess`. */
  lemma FailedOutcome(actions: seq<Action>, n: nat, q: Progress)
    requires n <= |actions| && PreprocessUpTo(actions, n) == q && q.Failed?
    ensures PreprocessOutcome(actions) == q
  {
    FailureSticks(actions, n, |actions|);
  }

  lemma FailStep(p: Progress, i: nat, e: ActionsError)
    requires p.Running? && i < |p.contents| && CheckAction(p.ids, p.pointerTypes, p.contents[i]) == Err(e)
    ensures ActionStep(p, i) == Failed(e, p.contents)
  {
  }

  /** A check that passes on the action at index i stores the rewritten action and records its id and pointer type. */
  lemma StepSucceeds(input: seq<Action>, i: nat, ids: seq<string>, pointerTypes: set<string>, contents: seq<Action>,
                     a: Action, id: string, newPointerTypes: set<string>)
    requires i < |input| && PreprocessUpTo(input, i) == Running(ids, pointerTypes, contents)
    requires CheckAction(ids, pointerTypes, contents[i]) == Ok((a, id, newPointerTypes))
    ensures PreprocessUpTo(input, i + 1) == Running(ids + [id], newPointerTypes, contents[i := a])
  {
    assert ActionStep(Running(ids, pointerTypes, contents), i) == Running(ids + [id], newPointerTypes, contents[i := a]);
  }

  /** A check that fails on the action at index i ends the loop with that failure. */
  lemma StepFails(input: seq<Action>, i: nat, ids: seq<string>, pointerTypes: set<string>, contents: seq<Action>, e: ActionsError)
    requires i < |input| && PreprocessUpTo(input, i) == Running(ids, pointerTypes, contents)
    requires CheckAction(ids, pointerTypes, contents[i]) == Err(e)
    ensures PreprocessUpTo(input, i + 1) == Failed(e, contents)
  {
    FailStep(Running(ids, pointerTypes, contents), i, e);
  }

  /**
   * The body of the loop of `preprocess` for one action: the checks in the
   * order the source makes them, then the rewritten action, its id and the
   * pointer types once it is added.
   */
  method PreprocessAction(action: Action, actionIds: seq<string>, pointerTypes: set<string>)
    returns (r: Result<(Action, string, set<string>), ActionsError>)
    ensures r == CheckAction(actionIds, pointerTypes, action)
  {
    if action.id.None? {
      return Err(Parse(MissingActionId));
    }
    var actionId := action.id.value;
    if actionId in actionIds {
      return Err(Parse(DuplicateActionId(actionId)));
    }
    if action.actionType.None? {
      return Err(Parse(MissingActionType(actionId)));
    }
    var actionType := action.actionType.value;
    if actionType !in ACTION_TYPES {
      return Err(Parse(UnknownActionType(actionId, actionType)));
    }
    var newPointerTypes := pointerTypes;
    if action.parameters.Some? {
      var params := action.parameters.value;
      if params.pointerType.Some? {
        var pointerType := params.pointerType.value;
        if pointerType !in POINTER_TYPES {
          return Err(Parse(UnknownPointerType(actionId, pointerType)));
        }
        newPointerTypes := pointerTypes + {pointerType};
        if actionType != ACTION_TYPE_POINTER {
          return Err(Parse(PointerTypeOnNonPointer(actionId)));
        }
      }
    }
    if action.items.None? {
      return Err(Parse(MissingItems(actionId)));
    }
    var processed := PreprocessActionItems(actionId, actionType, action.items.value);
    if processed.Err? {
      return Err(processed.error);
    }
    return Ok((action.(items := Some(processed.value)), actionId, newPointerTypes));
  }

  /**
   * `preprocess` rewrites the array in place and returns that same array;
   * when it throws, the actions before the failing one are already rewritten.
   */
  method Preprocess(actions: array<Action>) returns (r: Result<array<Action>, ActionsError>)
    modifies actions
    ensures actions[..] == PreprocessOutcome(old(actions[..])).contents
    ensures PreprocessOutcome(old(actions[..])).Running? ==> r == Ok(actions)
    ensures PreprocessOutcome(old(actions[..])).Failed? ==> r == Err(PreprocessOutcome(old(actions[..])).error)
  {
    ghost var input := actions[..];
    var actionIds: seq<string> := [];
    var pointerTypes: set<string> := {};
    var i := 0;
    while i < actions.Length
      invariant 0 <= i <= actions.Length
      invariant PreprocessUpTo(input, i) == Running(actionIds, pointerTypes, actions[..])
    {
      var checked := PreprocessAction(actions[i], actionIds, pointerTypes);
      if checked.Err? {
        r := Err(checked.error);
        StepFails(input, i, actionIds, pointerTypes, actions[..], checked.error);
        FailedOutcome(input, i + 1, Failed(checked.error, actions[..]));
        return;
      }
      var (newAction, actionId, newPointerTypes) := checked.value;
      StepSucceeds(input, i, actionIds, pointerTypes, actions[..], newAction, actionId, newPointerTypes);
      actions[i] := newAction;
      actionIds := actionIds + [actionId];
      pointerTypes := newPointerTypes;
      i := i + 1;
    }
    if |pointerTypes| > 1 {
      r := Err(Parse(SeveralPointerTypes(|pointerTypes|)));
      return;
    }
    r := Ok(actions);
  }

  // -----------------------------------------------------------------------
  // What preprocess accepts and returns, stated independently
  // -----------------------------------------------------------------------

  /** An action on its own is acceptable: id, known type, a pointer type only on pointer sources, allowed items. */
  predicate ActionValid(a: Action)
  {
    && a.id.Some?
    && a.actionType.Some? && a.actionType.value in ACTION_TYPES
    && (PointerTypeOf(a).Some? ==> PointerTypeOf(a).value in POINTER_TYPES && a.actionType.value == ACTION_TYPE_POINTER)
    && a.items.Some?
    && forall k :: 0 <= k < |a.items.value| ==> ItemAllowed(a.actionType.value, a.items.value[k])
  }

  /** The first n actions are each acceptable and their ids are pairwise distinct. */
  predicate PrefixValid(actions: seq<Action>, n: nat)
    requires n <= |actions|
  {
    (forall k :: 0 <= k < n ==> ActionValid(actions[k]))
    && forall j, k :: 0 <= j < k < n ==> actions[j].id != actions[k].id
  }

  function IdsOf(actions: seq<Action>, n: nat): (ids: seq<string>)
    requires n <= |actions| && forall k :: 0 <= k < n ==> actions[k].id.Some?
    ensures |ids| == n && forall k :: 0 <= k < n ==> ids[k] == actions[k].id.value
  {
    if n == 0 then [] else IdsOf(actions, n - 1) + [actions[n - 1].id.value]
  }

  /** The pointer types named by the first n actions. */
  function PointerTypesOf(actions: seq<Action>, n: nat): set<string>
    requires n <= |actions|
  {
    if n == 0 then {}
    else
      var pt := PointerTypeOf(actions[n - 1]);
      PointerTypesOf(actions, n - 1) + (if pt.Some? then {pt.value} else {})
  }

  /** An action after preprocessing: its items reduced to the survivors. */
  function Cleaned(a: Action): Action
    requires a.items.Some?
  {
    a.(items := Some(SurvivorsFrom(a.items.value, 0)))
  }

  /** One turn of the loop succeeds exactly on an acceptable action with a new id. */
  lemma ActionStepMeaning(p: Progress, i: nat)
    requires p.Running? && i < |p.contents|
    ensures var a := p.contents[i];
      ActionStep(p, i).Running? <==> ActionValid(a) && a.id.value !in p.ids
    ensures var a := p.contents[i];
      ActionStep(p, i).Running? ==>
        && ActionStep(p, i).ids == p.ids + [a.id.value]
        && ActionStep(p, i).pointerTypes == p.pointerTypes + (if PointerTypeOf(a).Some? then {PointerTypeOf(a).value} else {})
        && ActionStep(p, i).contents == p.contents[i := Cleaned(a)]
  {
    var a := p.contents[i];
    if a.id.Some? && a.actionType.Some? && a.items.Some? {
      PreprocessItemsMeaning(a.id.value, a.actionType.value, a.items.value);
    }
  }

  /** The first n actions are valid when the first n - 1 are and the n-th is valid with a new id. */
  lemma PrefixValidStep(actions: seq<Action>, n: nat)
    requires 0 < n <= |actions| && PrefixValid(actions, n - 1)
    ensures PrefixValid(actions, n) <==>
      ActionValid(actions[n - 1]) && actions[n - 1].id.value !in IdsOf(actions, n - 1)
  {
    var a := actions[n - 1];
    if ActionValid(a) && a.id.value in IdsOf(actions, n - 1) {
      var j :| 0 <= j < n - 1 && IdsOf(actions, n - 1)[j] == a.id.value;
      assert actions[j].id == a.id;
    }
  }

  /** What one more turn adds to a loop state that matches the first n - 1 actions. */
  lemma UpToStepMeaning(actions: seq<Action>, n: nat, p: Progress)
    requires 0 < n <= |actions| && p.Running? && |p.contents| == |actions| && PrefixValid(actions, n - 1)
    requires p.ids == IdsOf(actions, n - 1) && p.pointerTypes == PointerTypesOf(actions, n - 1)
    requires p.contents[n - 1] == actions[n - 1]
    requires forall k :: 0 <= k < n - 1 ==> p.contents[k] == Cleaned(actions[k])
    ensures ActionStep(p, n - 1).Running? <==> PrefixValid(actions, n)
    ensures ActionStep(p, n - 1).Running? ==>
      && ActionStep(p, n - 1).ids == IdsOf(actions, n)
      && ActionStep(p, n - 1).pointerTypes == PointerTypesOf(actions, n)
      && forall k :: 0 <= k < n ==> ActionStep(p, n - 1).contents[k] == Cleaned(actions[k])
  {
    ActionStepMeaning(p, n - 1);
    PrefixValidStep(actions, n);
  }

  lemma {:induction false} PreprocessUpToMeaning(actions: seq<Action>, n: nat)
    requires n <= |actions|
    ensures PreprocessUpTo(actions, n).Running? <==> PrefixValid(actions, n)
    ensures PreprocessUpTo(actions, n).Running? ==>
      && PreprocessUpTo(actions, n).ids == IdsOf(actions, n)
      && PreprocessUpTo(actions, n).pointerTypes == PointerTypesOf(actions, n)
      && forall k :: 0 <= k < n ==> PreprocessUpTo(actions, n).contents[k] == Cleaned(actions[k])
  {
    if n > 0 {
      PreprocessUpToMeaning(actions, n - 1);
      var p := PreprocessUpTo(actions, n - 1);
      assert PreprocessUpTo(actions, n) == ActionStep(p, n - 1);
      if p.Running? {
        UpToStepMeaning(actions, n, p);
      } else {
        assert !PrefixValid(actions, n - 1);
      }
    }
  }

  /**
   * `preprocess` accepts a chain exactly when all its actions are acceptable,
   * their ids are distinct and at most one pointer type is used; it then
   * returns every action with its items reduced to the survivors.
   */
  lemma PreprocessMeaning(actions: seq<Action>)
    ensures PreprocessOutcome(actions).Running? <==>
      PrefixValid(actions, |actions|) && |PointerTypesOf(actions, |actions|)| <= 1
    ensures PreprocessOutcome(actions).Running? ==>
      forall k :: 0 <= k < |actions| ==> PreprocessOutcome(actions).contents[k] == Cleaned(actions[k])
  {
    PreprocessUpToMeaning(actions, |actions|);
  }

  /** A valid chain without cancels comes back unchanged. */
  lemma PreprocessNoCancelUnchanged(actions: seq<Action>)
    requires PreprocessOutcome(actions).Running?
    requires forall k, m :: 0 <= k < |actions| && actions[k].items.Some? && 0 <= m < |actions[k].items.value| ==>
      !IsCancel(actions[k].items.value[m])
    ensures PreprocessOutcome(actions).contents == actions
  {
    PreprocessMeaning(actions);
    var out := PreprocessOutcome(actions).contents;
    forall k | 0 <= k < |actions|
      ensures out[k] == actions[k]
    {
      NoCancelAllSurvive(actions[k].items.value, 0);
      assert actions[k].items.value[0..] == actions[k].items.value;
    }
  }

  /** Two actions sharing an id: the chain is rejected. */
  lemma DuplicateIdRejected(actions: seq<Action>, j: nat, k: nat)
    requires j < k < |actions| && actions[j].id.Some? && actions[j].id == actions[k].id
    ensures PreprocessOutcome(actions).Failed?
  {
    PreprocessMeaning(actions);
  }
}
