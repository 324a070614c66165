/** The cafeteria menu component: the menu loaded from the server, the order
    being put together and its running total, and the message shown after
    sending the order.  Prices are whole amounts. */
module Cafeteria {
  import opened Subsequence

  datatype Option<T> = None | Some(value: T)

  datatype MenuItem = MenuItem(id: string, product: string, price: int)

  /** How the server answered the order: with a message, or not at all
      successfully (a failed request, an error status or an unreadable body). */
  datatype SubmitResponse = Accepted(message: string) | Failed

  /** The message shown when sending the order fails. */
  const SubmitErrorMessage: string := "Error al enviar el pedido"

  /** `find`: the first item carrying `id`, if any. */
  function FindById(items: seq<MenuItem>, id: string): (r: Option<MenuItem>)
    ensures r.None? <==> forall i :: 0 <= i < |items| ==> items[i].id != id
    ensures r.Some? ==> r.value.id == id && r.value in items
  {
    if items == [] then None
    else if items[0].id == id then Some(items[0])
    else FindById(items[1..], id)
  }

  /** The filter that keeps the entries not carrying `id`, each as often as
      before and in their original order. */
  function WithoutId(order: seq<MenuItem>, id: string): (r: seq<MenuItem>)
    ensures forall x :: x in r ==> x.id != id
    ensures forall x: MenuItem :: x.id != id ==> multiset(r)[x] == multiset(order)[x]
    ensures IsSubsequence(r, order)
  {
    if order == [] then []
    else
      var rest := WithoutId(order[1..], id);
      assert order == [order[0]] + order[1..];
      SubsequenceCons(rest, order[0], order[1..]);
      if order[0].id == id then rest else [order[0]] + rest
  }

  /** The sum of the prices in `order`. */
  function Total(order: seq<MenuItem>): int {
    if order == [] then 0 else order[0].price + Total(order[1..])
  }

  /** How many entries of `order` carry `id`. */
  function CountId(order: seq<MenuItem>, id: string): nat {
    if order == [] then 0 else (if order[0].id == id then 1 else 0) + CountId(order[1..], id)
  }

  /** The sum of the prices of the entries carrying `id`. */
  function IdTotal(order: seq<MenuItem>, id: string): int {
    if order == [] then 0 else (if order[0].id == id then order[0].price else 0) + IdTotal(order[1..], id)
  }

  /** The first match found is the leftmost one. */
  lemma {:induction false} FindByIdIsFirst(items: seq<MenuItem>, id: string)
    requires FindById(items, id).Some?
    ensures exists i :: 0 <= i < |items| && items[i] == FindById(items, id).value &&
                        forall j :: 0 <= j < i ==> items[j].id != id
  {
    if items[0].id != id {
      FindByIdIsFirst(items[1..], id);
      var i :| 0 <= i < |items[1..]| && items[1..][i] == FindById(items[1..], id).value &&
               forall j :: 0 <= j < i ==> items[1..][j].id != id;
      assert items[i + 1] == FindById(items, id).value;
      assert forall j :: 0 <= j < i + 1 ==> items[j].id != id by {
        forall j | 0 <= j < i + 1 ensures items[j].id != id {
          if j > 0 { assert items[j] == items[1..][j - 1]; }
        }
      }
    } else {
      assert items[0] == FindById(items, id).value;
    }
  }

  /** An id is found exactly when some entry carries it. */
  lemma {:induction false} FoundIffCounted(items: seq<MenuItem>, id: string)
    ensures FindById(items, id).Some? <==> CountId(items, id) >= 1
  {
    if items != [] {
      FoundIffCounted(items[1..], id);
    }
  }

  /** Adding an entry adds its price to the sum. */
  lemma {:induction false} TotalAppend(order: seq<MenuItem>, x: MenuItem)
    ensures Total(order + [x]) == Total(order) + x.price
  {
    if order != [] {
      assert (order + [x])[1..] == order[1..] + [x];
      TotalAppend(order[1..], x);
    } else {
      assert order + [x] == [x];
    }
  }

  /** Removing an id takes exactly the prices of its entries off the sum. */
  lemma {:induction false} TotalWithoutId(order: seq<MenuItem>, id: string)
    ensures Total(WithoutId(order, id)) == Total(order) - IdTotal(order, id)
  {
    if order != [] {
      TotalWithoutId(order[1..], id);
    }
  }

  /** With one entry for `id`, the prices of the id's entries are that entry's. */
  lemma {:induction false} IdTotalOfSingle(order: seq<MenuItem>, id: string)
    requires CountId(order, id) == 1
    ensures FindById(order, id).Some? && IdTotal(order, id) == FindById(order, id).value.price
  {
    if order[0].id == id {
      NoEntriesNoIdTotal(order[1..], id);
    } else {
      IdTotalOfSingle(order[1..], id);
    }
  }

  lemma {:induction false} NoEntriesNoIdTotal(order: seq<MenuItem>, id: string)
    requires CountId(order, id) == 0
    ensures IdTotal(order, id) == 0
  {
    if order != [] {
      NoEntriesNoIdTotal(order[1..], id);
    }
  }

  /** With two or more entries for `id`, all priced above zero, the prices of
      the id's entries exceed the first one's. */
  lemma {:induction false} IdTotalOfRepeated(order: seq<MenuItem>, id: string)
    requires CountId(order, id) >= 2
    requires forall i :: 0 <= i < |order| ==> order[i].price > 0
    ensures FindById(order, id).Some? && IdTotal(order, id) > FindById(order, id).value.price
  {
    if order[0].id == id {
      IdTotalPositive(order[1..], id);
    } else {
      IdTotalOfRepeated(order[1..], id);
    }
  }

  lemma {:induction false} IdTotalPositive(order: seq<MenuItem>, id: string)
    requires CountId(order, id) >= 1
    requires forall i :: 0 <= i < |order| ==> order[i].price > 0
    ensures IdTotal(order, id) > 0
  {
    if order[0].id != id {
      IdTotalPositive(order[1..], id);
    } else if order[1..] != [] {
      IdTotalNonNegative(order[1..], id);
    }
  }

  lemma {:induction false} IdTotalNonNegative(order: seq<MenuItem>, id: string)
    requires forall i :: 0 <= i < |order| ==> order[i].price > 0
    ensures IdTotal(order, id) >= 0
  {
    if order != [] {
      IdTotalNonNegative(order[1..], id);
    }
  }

  /** Deleting an id that occurs once keeps the total equal to the sum. */
  lemma DeleteKeepsTotalWhenUnique(order: seq<MenuItem>, id: string)
    requires CountId(order, id) == 1
    ensures FindById(order, id).Some?
    ensures Total(order) - FindById(order, id).value.price == Total(WithoutId(order, id))
  {
    IdTotalOfSingle(order, id);
    TotalWithoutId(order, id);
  }

  /** Deleting an id that occurs more than once removes all its entries but
      subtracts only one price: the total is left above the sum. */
  lemma DeleteOverstatesTotalWhenRepeated(order: seq<MenuItem>, id: string)
    requires CountId(order, id) >= 2
    requires forall i :: 0 <= i < |order| ==> order[i].price > 0
    ensures FindById(order, id).Some?
    ensures Total(order) - FindById(order, id).value.price > Total(WithoutId(order, id))
  {
    IdTotalOfRepeated(order, id);
    TotalWithoutId(order, id);
  }

  /** The component's state cells and its handlers. */
  class Menu {
    var menuItems: seq<MenuItem>
    var order: seq<MenuItem>
    /** The running total shown under the order. */
    var total: int
    var successMessage: string

    /** The running total is the sum of the order's prices. */
    ghost predicate TotalMatches()
      reads this
    {
      total == Total(order)
    }

    constructor ()
      ensures menuItems == [] && order == [] && total == 0 && successMessage == ""
      ensures TotalMatches()
    {
      menuItems := [];
      order := [];
      total := 0;
      successMessage := "";
    }

    /** Storing the menu the server sent. */
    method LoadMenu(items: seq<MenuItem>)
      modifies this
      ensures menuItems == items
      ensures order == old(order) && total == old(total) && successMessage == old(successMessage)
    {
      menuItems := items;
    }

    /** Adds the first menu item carrying `id` to the order and its price to
        the total; an id not on the menu changes nothing. */
    method HandleOrder(id: string)
      modifies this
      ensures menuItems == old(menuItems) && successMessage == old(successMessage)
      ensures match FindById(old(menuItems), id)
              case None => order == old(order) && total == old(total)
              case Some(item) => order == old(order) + [item] && total == item.price + old(total)
      ensures old(TotalMatches()) ==> TotalMatches()
    {
      var selected := FindById(menuItems, id);
      if selected.Some? {
        TotalAppend(order, selected.value);
        order := order + [selected.value];
        total := selected.value.price + total;
      }
    }

    /** Removes every entry carrying `id` from the order and subtracts the
        price of the first of them; an id not in the order changes nothing. */
    method HandleDelete(id: string)
      modifies this
      ensures menuItems == old(menuItems) && successMessage == old(successMessage)
      ensures match FindById(old(order), id)
              case None => order == old(order) && total == old(total)
              case Some(item) => order == WithoutId(old(order), id) && total == old(total) - item.price
      ensures old(TotalMatches()) && CountId(old(order), id) <= 1 ==> TotalMatches()
    {
      var toRemove := FindById(order, id);
      if toRemove.Some? {
        ghost var before := order;
        var kept := WithoutId(order, id);
        FoundIffCounted(before, id);
        ghost var unique := CountId(before, id) == 1;
        if unique {
          DeleteKeepsTotalWhenUnique(before, id);
        }
        order := kept;
        total := total - toRemove.value.price;
        assert old(TotalMatches()) && unique ==> total == Total(kept);
      }
    }

    /** The part of `handleSubmit` before the request is awaited: the order
        and the total it sends, read from the current state. */
    method BeginSubmit() returns (sent: (seq<MenuItem>, int))
      ensures sent == (order, total)
    {
      sent := (order, total);
    }

    /** The part of `handleSubmit` after the server has answered: on success
        it shows the server's message and empties the order, whatever it
        holds by then; on failure it shows the error message and keeps the
        order. */
    method FinishSubmit(response: SubmitResponse)
      modifies this
      ensures menuItems == old(menuItems)
      ensures response.Accepted? ==> successMessage == response.message && order == [] && total == 0
      ensures response.Failed? ==> successMessage == SubmitErrorMessage && order == old(order) && total == old(total)
      ensures response.Accepted? ==> TotalMatches()
    {
      match response {
        case Accepted(message) =>
          successMessage := message;
          order := [];
          total := 0;
        case Failed =>
          successMessage := SubmitErrorMessage;
      }
    }

    /** A submission with no other event while the request is in flight. */
    method HandleSubmit(response: SubmitResponse) returns (sent: (seq<MenuItem>, int))
      modifies this
      ensures sent == (old(order), old(total))
      ensures menuItems == old(menuItems)
      ensures response.Accepted? ==> successMessage == response.message && order == [] && total == 0
      ensures response.Failed? ==> successMessage == SubmitErrorMessage && order == old(order) && total == old(total)
      ensures response.Accepted? ==> TotalMatches()
    {
      sent := BeginSubmit();
      FinishSubmit(response);
    }
  }

  /** An item ordered while the submission is in flight is not sent, and a
      successful answer then drops it from the order as well. */
  method OrderDuringSubmit(menu: Menu, id: string, response: SubmitResponse) returns (sent: (seq<MenuItem>, int))
    modifies menu
    ensures sent == (old(menu.order), old(menu.total))
    ensures response.Accepted? ==> menu.order == [] && menu.total == 0
    ensures response.Failed? ==> menu.order == match FindById(old(menu.menuItems), id)
                                               case None => old(menu.order)
                                               case Some(item) => old(menu.order) + [item]
  {
    sent := menu.BeginSubmit();
    menu.HandleOrder(id);
    menu.FinishSubmit(response);
  }
}
