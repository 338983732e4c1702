/** The two lookups the modal makes when it is opened: which sold-out action
    to preselect and which delivery-fee row applies to the restaurant. */
module OpenLookups {
  import opened Basics

  datatype SoldOutAction = SoldOutAction(id: int, name: string)

  /** A row of the restaurant delivery-fee list; the fee is only carried. */
  datatype DeliveryFee = DeliveryFee(restaurantId: int, fee: real)

  /** The sold-out action chosen on open, given the app's `SoldOutActions`,
      whether a user is logged in, that user's saved action (if defined) and
      the value the field held before. The field is only written when a
      choice is found. */
  function ChooseSoldOutAction(
    actions: seq<SoldOutAction>,
    isLoggedIn: bool,
    userAction: Option<SoldOutAction>,
    current: Option<SoldOutAction>): (r: Option<SoldOutAction>)
    // a logged-in user gets the first action carrying the same ID ...
    ensures isLoggedIn && userAction.Some? ==>
      forall k :: 0 <= k < |actions| && actions[k].id == userAction.value.id
                  && (forall j :: 0 <= j < k ==> actions[j].id != userAction.value.id)
        ==> r == Some(actions[k])
    // ... and nothing changes when there is no such action or no saved action
    ensures isLoggedIn && userAction.Some? ==>
      (forall k :: 0 <= k < |actions| ==> actions[k].id != userAction.value.id) ==> r == current
    ensures isLoggedIn && userAction.None? ==> r == current
    // anyone else gets the first action of the list, if there is one
    ensures !isLoggedIn && |actions| > 0 ==> r == Some(actions[0])
    ensures !isLoggedIn && |actions| == 0 ==> r == current
  {
    if isLoggedIn then
      if userAction.Some? then
        match FirstWhere(actions, (s: SoldOutAction) => s.id == userAction.value.id)
        case Some(k) => Some(actions[k])
        case None => current
      else current
    else if |actions| > 0 then Some(actions[0])
    else current
  }

  /** The delivery fee chosen on open. Only a schlep-fetch item fetches the
      list; the field is written with the first row whose restaurant matches
      and keeps its previous value otherwise. */
  method ChooseDeliveryFee(
    isSchlepFetch: bool,
    rows: Option<seq<DeliveryFee>>,
    restaurantId: int,
    current: Option<DeliveryFee>) returns (fee: Option<DeliveryFee>)
    ensures !isSchlepFetch || rows.None? ==> fee == current
    ensures isSchlepFetch && rows.Some? ==>
      forall k :: 0 <= k < |rows.value| && rows.value[k].restaurantId == restaurantId
                  && (forall j :: 0 <= j < k ==> rows.value[j].restaurantId != restaurantId)
        ==> fee == Some(rows.value[k])
    ensures isSchlepFetch && rows.Some? ==>
      (forall k :: 0 <= k < |rows.value| ==> rows.value[k].restaurantId != restaurantId) ==> fee == current
  {
    fee := current;
    if isSchlepFetch && rows.Some? {
      var list := rows.value;
      var i := 0;
      while i < |list|
        invariant 0 <= i <= |list|
        invariant forall j :: 0 <= j < i ==> list[j].restaurantId != restaurantId
        invariant fee == current
      {
        if list[i].restaurantId == restaurantId {
          fee := Some(list[i]);
          break;
        }
        i := i + 1;
      }
    }
  }
}
