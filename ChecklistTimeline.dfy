/**
 * The checklist timeline of a claim: each item is drawn as done, current (the
 * first item not yet done) or waiting, items are joined by connectors, and the
 * checkbox and the "Mark Complete" button ask the server to flip an item.
 */
module ChecklistTimeline {
  import opened Wrappers
  import opened JsCollections
  import opened Schema

  predicate Incomplete(item: ChecklistItem) {
    !item.isCompleted
  }

  /** `items.findIndex(item => !item.isCompleted)`: the first item not done, or -1 when all are. */
  function CurrentItemIndex(items: seq<ChecklistItem>): (r: int)
    ensures -1 <= r < |items|
    ensures r >= 0 ==> !items[r].isCompleted && forall j | 0 <= j < r :: items[j].isCompleted
    ensures r == -1 <==> forall j | 0 <= j < |items| :: items[j].isCompleted
  {
    FindIndex(items, Incomplete)
  }

  /** The three icons of an item: a check, the pulsing dot, the grey dot. */
  datatype Icon = CheckIcon | PulsingDot | GreyDot

  /** The three circle styles: success, secondary with a border, plain. */
  datatype Circle = SuccessCircle | CurrentCircle | PlainCircle

  /** `getItemIcon(items[index], index)` */
  function ItemIcon(items: seq<ChecklistItem>, index: nat): (icon: Icon)
    requires index < |items|
    ensures icon == CheckIcon <==> items[index].isCompleted
    ensures icon == PulsingDot <==> index == CurrentItemIndex(items)
  {
    if items[index].isCompleted then CheckIcon
    else if index == CurrentItemIndex(items) then PulsingDot
    else GreyDot
  }

  /** `getItemStyle(items[index], index)` */
  function ItemStyle(items: seq<ChecklistItem>, index: nat): (circle: Circle)
    requires index < |items|
    ensures circle == SuccessCircle <==> items[index].isCompleted
    ensures circle == CurrentCircle <==> index == CurrentItemIndex(items)
  {
    if items[index].isCompleted then SuccessCircle
    else if index == CurrentItemIndex(items) then CurrentCircle
    else PlainCircle
  }

  /**
   * Icon and circle always agree, at most one item is drawn as current, it is
   * the first item not done, and every item before it is done.
   */
  lemma OneCurrentItem(items: seq<ChecklistItem>, i: nat, j: nat)
    requires i < |items| && j < |items|
    ensures (ItemIcon(items, i) == PulsingDot) == (ItemStyle(items, i) == CurrentCircle)
    ensures ItemIcon(items, i) == PulsingDot && ItemIcon(items, j) == PulsingDot ==> i == j
    ensures ItemIcon(items, i) == PulsingDot ==> !items[i].isCompleted && forall k | 0 <= k < i :: ItemIcon(items, k) == CheckIcon
  {
  }

  /** An item is drawn as waiting exactly when an earlier item is not done yet. */
  lemma WaitingMeansEarlierOpen(items: seq<ChecklistItem>, i: nat)
    requires i < |items|
    ensures ItemIcon(items, i) == GreyDot <==> !items[i].isCompleted && exists k | 0 <= k < i :: !items[k].isCompleted
  {
    if ItemIcon(items, i) == GreyDot {
      var c := CurrentItemIndex(items);
      assert 0 <= c < i;
    }
  }

  /** The connector under an item: none, a success line, a plain line. */
  datatype Connector = NoConnector | SuccessLine | PlainLine

  /** `getConnectorStyle(index)` */
  function ConnectorStyle(items: seq<ChecklistItem>, index: nat): (c: Connector)
    requires index < |items|
    ensures c == NoConnector <==> index == |items| - 1
    ensures c == SuccessLine <==> index < |items| - 1 && items[index].isCompleted
  {
    if index == |items| - 1 then NoConnector
    else if items[index].isCompleted then SuccessLine
    else PlainLine
  }

  /** The body of the `PUT /api/checklist/:id` request the page sends. */
  datatype ToggleRequest = ToggleRequest(itemId: Id, isCompleted: bool)

  /** `handleItemToggle(item.id, item.isCompleted || false)`: ask for the opposite of the current flag. */
  function HandleItemToggle(item: ChecklistItem): (r: ToggleRequest)
    ensures r.itemId == item.id
    ensures r.isCompleted != item.isCompleted
  {
    ToggleRequest(item.id, !item.isCompleted)
  }

  /** The "Mark Complete" button: shown only for an item not done, and then asks to complete it. */
  function MarkComplete(item: ChecklistItem): (r: Option<ToggleRequest>)
    ensures r.Some? <==> !item.isCompleted
    ensures r.Some? ==> r.value == ToggleRequest(item.id, true)
  {
    if item.isCompleted then None else Some(HandleItemToggle(item))
  }
}
