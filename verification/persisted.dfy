/** What the cart and favourites providers keep in local storage: the key
    a list is stored under and how a provider restores its list from the
    stored text.

    Local storage itself and `JSON.stringify` are outside the model. The
    stored text is a parameter, and `JSON.parse` is a parameter `parse`
    that yields the list the text denotes, or `None` where parsing throws. */
module Persisted {
  import opened Transport
  import opened Text
  import Auth

  /** `user?.id` is truthy: a user is known and its id is not 0. */
  predicate SignedIn(userId: Option<int>)
  {
    userId.Some? && userId.value != 0
  }

  /** The per-user storage key `<base>_user_<id>`, or `<base>_guest` when no
      user is signed in (`getCartKey`, `getFavoritesKey`). */
  function StorageKey(base: string, userId: Option<int>): (r: string)
    ensures StartsWith(r, base + "_")
    ensures SignedIn(userId) ==> StartsWith(r, base + "_user_")
    ensures SignedIn(userId) ==> |r| >= |base| + 6 && r[|base| + 6..] == IntToString(userId.value)
    ensures !SignedIn(userId) ==> r == base + "_guest"
  {
    if SignedIn(userId) then
      var r := base + "_user_" + IntToString(userId.value);
      assert r[..|base| + 6] == base + "_user_";
      assert r[|base| + 6..] == IntToString(userId.value);
      r
    else base + "_guest"
  }

  /** Different signed-in users never share a key, and no signed-in user
      shares the guest key: a user switch always reads a different entry. */
  lemma StorageKeysSeparateUsers(base: string, a: Option<int>, b: Option<int>)
    requires SignedIn(a)
    ensures StorageKey(base, a) != StorageKey(base, None)
    ensures SignedIn(b) && a.value != b.value ==> StorageKey(base, a) != StorageKey(base, b)
  {
    var ka := StorageKey(base, a);
    var guest := StorageKey(base, None);
    assert ka[|base| + 1] == 'u';
    assert guest[|base| + 1] == 'g';
    if SignedIn(b) && a.value != b.value {
      IntToStringInjective(a.value, b.value);
      PrefixKeepsDistinct(base + "_user_", IntToString(a.value), IntToString(b.value));
    }
  }

  /** The key the providers compute from the auth context as it is
      provided: the context has no user, so every visitor, signed in or
      not, gets the guest key. */
  function StorageKeyAsWritten(base: string, ctx: Auth.AuthContext): (r: string)
    ensures r == StorageKey(base, None)
  {
    StorageKey(base, Auth.UserIdOf(ctx))
  }

  /** As written, two signed-in sessions share one entry, while keying by
      the user id would have kept them apart. */
  lemma UsersShareKeyAsWritten(base: string, a: Auth.AuthContext, b: Auth.AuthContext)
    ensures StorageKeyAsWritten(base, a) == StorageKeyAsWritten(base, b) == base + "_guest"
    ensures StorageKey(base, Some(1)) != StorageKey(base, Some(2))
  {
    StorageKeysSeparateUsers(base, Some(1), Some(2));
  }

  /** The list a provider holds after reading storage, and whether it
      removes the stored entry. */
  datatype Restored<T> = Restored(items: seq<T>, dropKey: bool)

  /** Stored text that is present and non-empty (`if (saved)`). */
  predicate Present(saved: Option<string>)
  {
    saved.Some? && saved.value != ""
  }

  /** The per-user providers' load on every user change: the parsed list
      when the entry is readable; otherwise the empty list, and the entry is
      removed when it is present but does not parse. */
  function Restore<T>(saved: Option<string>, parse: string -> Option<seq<T>>): (r: Restored<T>)
    ensures !Present(saved) ==> r == Restored([], false)
    ensures Present(saved) && parse(saved.value).Some? ==> r == Restored(parse(saved.value).value, false)
    ensures Present(saved) && parse(saved.value).None? ==> r == Restored([], true)
  {
    if !Present(saved) then Restored([], false)
    else match parse(saved.value)
      case None => Restored([], true)
      case Some(items) => Restored(items, false)
  }

  /** The single-key providers' load on mount: the parsed list when the
      entry is readable; otherwise the list is left as it is, and an entry
      that does not parse is removed. */
  function RestoreOnMount<T>(current: seq<T>, saved: Option<string>, parse: string -> Option<seq<T>>): (r: Restored<T>)
    ensures !Present(saved) ==> r == Restored(current, false)
    ensures Present(saved) && parse(saved.value).Some? ==> r == Restored(parse(saved.value).value, false)
    ensures Present(saved) && parse(saved.value).None? ==> r == Restored(current, true)
  {
    if !Present(saved) then Restored(current, false)
    else match parse(saved.value)
      case None => Restored(current, true)
      case Some(items) => Restored(items, false)
  }

  /** Both loads remove the stored entry exactly when it is present and
      unreadable; on mount, when the list is still empty, they agree
      entirely. */
  lemma RestoreVariantsAgreeOnMount<T>(current: seq<T>, saved: Option<string>, parse: string -> Option<seq<T>>)
    ensures RestoreOnMount(current, saved, parse).dropKey == Restore(saved, parse).dropKey
    ensures Restore(saved, parse).dropKey <==> Present(saved) && parse(saved.value).None?
    ensures RestoreOnMount([], saved, parse) == Restore(saved, parse)
  {
  }
}
