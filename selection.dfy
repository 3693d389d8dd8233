/**
 * The selection rule shared by both image stores (app/state.py and gui/state.py): the
 * active index is -1 exactly when the list is empty and a valid position otherwise, and
 * removing an image moves the selection one step back whichever image was removed.
 */
module Selection {
  /** The store's invariant: -1 when there are no images, otherwise an index into the list. */
  predicate Consistent(count: nat, active: int) {
    if count == 0 then active == -1 else 0 <= active < count
  }

  /** The active index remove_image leaves, given how many images remain. */
  function AfterRemove(remaining: nat, active: int): (a: int)
    ensures a == -1 <==> remaining == 0
    ensures Consistent(remaining + 1, active) ==> Consistent(remaining, a)
    ensures remaining > 0 && active >= 1 ==> a == active - 1
    ensures remaining > 0 && active <= 0 ==> a == 0
  {
    if remaining == 0 then -1
    else if active - 1 > 0 then active - 1 else 0
  }

  /** The list without its entry at index (list.pop(index)). */
  function Without<T>(s: seq<T>, index: int): (t: seq<T>)
    requires 0 <= index < |s|
    ensures |t| == |s| - 1
    ensures forall i :: 0 <= i < index ==> t[i] == s[i]
    ensures forall i :: index <= i < |t| ==> t[i] == s[i + 1]
  {
    s[..index] + s[index + 1..]
  }

  /** Removing an image in front of the active one keeps the same image active. */
  lemma RemoveBeforeKeepsActive<T>(images: seq<T>, active: int, index: int)
    requires 0 <= index < active < |images|
    ensures var rest := Without(images, index);
      rest[AfterRemove(|rest|, active)] == images[active]
  {
    var rest := Without(images, index);
    assert AfterRemove(|rest|, active) == active - 1;
    assert rest[active - 1] == images[active];
  }

  /**
   * Removing an image behind the active one still moves the selection back: the image
   * in front of the previously active one becomes active.
   */
  lemma RemoveAfterMovesActive<T>(images: seq<T>, active: int, index: int)
    requires 0 < active < index < |images|
    ensures var rest := Without(images, index);
      rest[AfterRemove(|rest|, active)] == images[active - 1]
  {
    var rest := Without(images, index);
    assert AfterRemove(|rest|, active) == active - 1;
    assert rest[active - 1] == images[active - 1];
  }

  /** Removing the first image while it is active selects the image that was second. */
  lemma RemoveFirstSelectsNext<T>(images: seq<T>)
    requires |images| >= 2
    ensures var rest := Without(images, 0);
      rest[AfterRemove(|rest|, 0)] == images[1]
  {
    var rest := Without(images, 0);
    assert AfterRemove(|rest|, 0) == 0;
    assert rest[0] == images[1];
  }
}
