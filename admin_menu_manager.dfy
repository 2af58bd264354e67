/** The staff's menu editor (components/AdminMenuManager.tsx): the add
    form with its check, the inline editor and the buttons wired to the
    menu handlers. */
module AdminMenuManager {
  import opened Types

  /** The add form's check `newItem.name && newItem.price > 0 &&
      newItem.imageUrl`: a non-empty name, a positive price and a
      non-empty image URL. The category is not checked. */
  predicate DraftAccepted(d: Draft)
  {
    |d.name| > 0 && d.price > 0 && |d.imageUrl| > 0
  }

  /** The form's first contents. */
  const InitialDraft: Draft := Draft("", Coffee, 0, "")

  /** The contents after a successful add: the image URL is prefilled. */
  const ResetDraft: Draft := Draft("", Coffee, 0, "https://picsum.photos/400/300")

  /** A fresh form is refused until name, price and image URL are all
      filled in; after a successful add only a name and a positive price
      are still needed. */
  lemma FormNeedsFilling(name: string, price: int, imageUrl: string, category: Category)
    ensures !DraftAccepted(InitialDraft) && !DraftAccepted(ResetDraft)
    ensures DraftAccepted(InitialDraft.(name := name, price := price, imageUrl := imageUrl, category := category))
        <==> name != "" && price > 0 && imageUrl != ""
    ensures DraftAccepted(ResetDraft.(name := name, price := price, category := category))
        <==> name != "" && price > 0
  {
  }

  /** The menu row of `item` shows the inline editor (with Save and
      Cancel) instead of the Edit and Delete buttons. */
  predicate RowInEditor(editingItem: Option<MenuItem>, item: MenuItem)
  {
    editingItem.Some? && editingItem.value.id == item.id
  }

  /** The editor's local React state. */
  class MenuManager {
    var isAdding: bool
    var editingItem: Option<MenuItem>
    var newItem: Draft

    constructor ()
      ensures !isAdding && editingItem.None? && newItem == InitialDraft
    {
      isAdding := false;
      editingItem := None;
      newItem := InitialDraft;
    }

    /** The "Add New Item" / "Cancel" button: shows or hides the form
        without clearing it. */
    method ToggleAdding()
      modifies this
      ensures isAdding == !old(isAdding)
      ensures editingItem == old(editingItem) && newItem == old(newItem)
    {
      isAdding := !isAdding;
    }

    /** The name input of the add form. */
    method EditNewName(name: string)
      modifies this
      ensures newItem == old(newItem).(name := name)
      ensures isAdding == old(isAdding) && editingItem == old(editingItem)
    {
      newItem := newItem.(name := name);
    }

    /** The category select of the add form. */
    method EditNewCategory(category: Category)
      modifies this
      ensures newItem == old(newItem).(category := category)
      ensures isAdding == old(isAdding) && editingItem == old(editingItem)
    {
      newItem := newItem.(category := category);
    }

    /** The price input of the add form (the parsed value, in cents). */
    method EditNewPrice(price: int)
      modifies this
      ensures newItem == old(newItem).(price := price)
      ensures isAdding == old(isAdding) && editingItem == old(editingItem)
    {
      newItem := newItem.(price := price);
    }

    /** The image URL input of the add form. */
    method EditNewImageUrl(imageUrl: string)
      modifies this
      ensures newItem == old(newItem).(imageUrl := imageUrl)
      ensures isAdding == old(isAdding) && editingItem == old(editingItem)
    {
      newItem := newItem.(imageUrl := imageUrl);
    }

    /** `handleAdd`: an accepted draft goes to `onAdd` (returned in
        `added`), the form is reset and closed; a refused one changes
        nothing. */
    method HandleAdd() returns (added: Option<Draft>)
      modifies this
      ensures added.Some? <==> DraftAccepted(old(newItem))
      ensures added.Some? ==> added.value == old(newItem) && newItem == ResetDraft && !isAdding
      ensures added.None? ==> newItem == old(newItem) && isAdding == old(isAdding)
      ensures editingItem == old(editingItem)
    {
      added := None;
      if |newItem.name| > 0 && newItem.price > 0 && |newItem.imageUrl| > 0 {
        added := Some(newItem);
        newItem := ResetDraft;
        isAdding := false;
      }
    }

    /** An item's Edit button: that item is copied into the editor. */
    method StartEditing(item: MenuItem)
      modifies this
      ensures editingItem == Some(item)
      ensures isAdding == old(isAdding) && newItem == old(newItem)
    {
      editingItem := Some(item);
    }

    /** The editor's name input; it is only shown while an item is edited. */
    method EditName(name: string)
      requires editingItem.Some?
      modifies this
      ensures editingItem == Some(old(editingItem).value.(name := name))
      ensures isAdding == old(isAdding) && newItem == old(newItem)
    {
      editingItem := Some(editingItem.value.(name := name));
    }

    /** The editor's price input (the parsed value, in cents). */
    method EditPrice(price: int)
      requires editingItem.Some?
      modifies this
      ensures editingItem == Some(old(editingItem).value.(price := price))
      ensures isAdding == old(isAdding) && newItem == old(newItem)
    {
      editingItem := Some(editingItem.value.(price := price));
    }

    /** The editor's Cancel button. */
    method CancelEditing()
      modifies this
      ensures editingItem.None?
      ensures isAdding == old(isAdding) && newItem == old(newItem)
    {
      editingItem := None;
    }

    /** `handleUpdate`: the edited item goes to `onUpdate` (returned in
        `updated`) and the editor closes. Unlike the add form, nothing is
        checked: an empty name or a zero price is saved as it is. */
    method HandleUpdate() returns (updated: Option<MenuItem>)
      modifies this
      ensures updated == old(editingItem) && editingItem.None?
      ensures isAdding == old(isAdding) && newItem == old(newItem)
    {
      updated := editingItem;
      editingItem := None;
    }
  }

  /** Saving an edit keeps the item's id, and the editor lets through an
      item the add form would refuse: zeroing the price of an accepted
      item and saving it goes unchecked. */
  method EditorSkipsCheck(item: MenuItem) returns (saved: MenuItem)
    requires DraftAccepted(AsDraft(item))
    ensures saved.id == item.id && saved.price == 0
    ensures !DraftAccepted(AsDraft(saved))
  {
    var m := new MenuManager();
    m.StartEditing(item);
    m.EditPrice(0);
    var u := m.HandleUpdate();
    saved := u.value;
  }
}
