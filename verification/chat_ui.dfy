/** The stand-alone chat widget (components/message/ChatUI.tsx): a contact
    list that can be shown or hidden, the selected contact, the conversation
    shown and the draft being typed. Everything is local state; sending only
    appends to the local conversation and moves the contact to the top.

    The message id (`Date.now()`) and the clock text (`toLocaleTimeString`)
    are parameters. */
module ChatUi {
  import opened Transport
  import opened Lists
  import opened Keyed
  import opened Text

  /** A conversation partner as listed (`User` in the component). */
  datatype Contact = Contact(
    id: string,
    name: string,
    lastMessage: string,
    timestamp: string,
    unreadCount: int,
    avatar: Option<string>)

  /** A line of the conversation. */
  datatype Line = Line(id: string, senderId: string, content: string, timestamp: string, isOwn: bool)

  datatype Widget = Widget(
    showUserList: bool,
    selectedUser: Option<Contact>,
    messages: seq<Line>,
    newMessage: string,
    users: seq<Contact>)

  /** The sender id the widget stamps on its own lines. */
  const CurrentUser: string := "current-user"

  function ContactId(c: Contact): string
  {
    c.id
  }

  /** The message icon shows the contact list when hidden and hides it when
      shown; nothing else changes. */
  function ClickMessageIcon(w: Widget): (r: Widget)
    ensures r.showUserList != w.showUserList
    ensures r == w.(showUserList := r.showUserList)
  {
    w.(showUserList := !w.showUserList)
  }

  /** Clicking the icon twice leaves the widget as it was. */
  lemma ClickMessageIconTwice(w: Widget)
    ensures ClickMessageIcon(ClickMessageIcon(w)) == w
  {
  }

  /** Choosing a contact selects it as clicked, hides the list and zeroes the
      unread count of every listed contact with its id; no contact is added,
      removed or reordered, and the conversation and draft are kept. */
  function SelectUser(w: Widget, c: Contact): (r: Widget)
    ensures r.selectedUser == Some(c) && !r.showUserList
    ensures r.messages == w.messages && r.newMessage == w.newMessage
    ensures |r.users| == |w.users|
    ensures forall i :: 0 <= i < |w.users| ==>
              r.users[i] == if w.users[i].id == c.id then w.users[i].(unreadCount := 0) else w.users[i]
  {
    w.(selectedUser := Some(c), showUserList := false,
       users := Update(w.users, ContactId, c.id, (u: Contact) => u.(unreadCount := 0)))
  }

  /** Selecting the same contact again changes nothing further, and the ids
      listed are exactly those listed before. */
  lemma SelectUserIdempotent(w: Widget, c: Contact)
    ensures SelectUser(SelectUser(w, c), c) == SelectUser(w, c)
    ensures forall k :: Has(SelectUser(w, c).users, ContactId, k) <==> Has(w.users, ContactId, k)
  {
    UpdateKeepsKeys(w.users, ContactId, c.id, (u: Contact) => u.(unreadCount := 0));
  }

  /** The close button of the conversation clears the selection. */
  function CloseConversation(w: Widget): (r: Widget)
    ensures r.selectedUser.None?
    ensures r == w.(selectedUser := r.selectedUser)
  {
    w.(selectedUser := None)
  }

  /** The close button of the contact list hides it. */
  function CloseUserList(w: Widget): (r: Widget)
    ensures !r.showUserList
    ensures r == w.(showUserList := r.showUserList)
  {
    w.(showUserList := false)
  }

  /** Typing into the message box replaces the draft. */
  function TypeDraft(w: Widget, text: string): (r: Widget)
    ensures r.newMessage == text
    ensures r == w.(newMessage := r.newMessage)
  {
    w.(newMessage := text)
  }

  /** The send button is enabled only with a contact selected and a draft
      that is not all whitespace. */
  predicate CanSend(w: Widget)
  {
    w.selectedUser.Some? && !IsBlank(w.newMessage)
  }

  /** The change a send makes to the contact it goes to. */
  function Touch(text: string): Contact -> Contact
  {
    (u: Contact) => u.(lastMessage := text, timestamp := "now")
  }

  /** The contact list after sending `text` to id `k`: the contacts of the
      updated list, those with id `k` first, then the others exactly as they
      were and in the same order. */
  function Bump(users: seq<Contact>, k: string, text: string): (r: seq<Contact>)
    ensures |r| == |users|
    ensures multiset(r) == multiset(Update(users, ContactId, k, Touch(text)))
    ensures forall i, j :: 0 <= i < j < |r| && KeyIs(ContactId, k)(r[j]) ==> KeyIs(ContactId, k)(r[i])
    ensures Filter(r, Not(KeyIs(ContactId, k))) == Filter(users, Not(KeyIs(ContactId, k)))
  {
    var touched := Update(users, ContactId, k, Touch(text));
    UntouchedKept(users, k, text);
    Partition(touched, KeyIs(ContactId, k))
  }

  /** Holds of a contact that, if it has id `k`, carries the text. */
  function Carries(k: string, text: string): Contact -> bool
  {
    (c: Contact) => c.id == k ==> c.lastMessage == text && c.timestamp == "now"
  }

  /** Every contact with id `k` in the bumped list carries the text. */
  lemma BumpCarriesText(users: seq<Contact>, k: string, text: string)
    ensures var r := Bump(users, k, text);
            forall i :: 0 <= i < |r| && r[i].id == k ==> r[i].lastMessage == text && r[i].timestamp == "now"
  {
    var touched := Update(users, ContactId, k, Touch(text));
    assert forall i :: 0 <= i < |touched| ==> Carries(k, text)(touched[i]);
    var a := Filter(touched, KeyIs(ContactId, k));
    var b := Filter(touched, Not(KeyIs(ContactId, k)));
    FilterAll(touched, KeyIs(ContactId, k), Carries(k, text));
    FilterAll(touched, Not(KeyIs(ContactId, k)), Carries(k, text));
    assert Bump(users, k, text) == a + b;
    forall i | 0 <= i < |a + b|
      ensures Carries(k, text)((a + b)[i])
    {
      if i < |a| {
        assert (a + b)[i] == a[i];
      } else {
        assert (a + b)[i] == b[i - |a|];
      }
    }
  }

  /** `handleSendMessage`. A blank draft or no selection changes nothing.
      Otherwise the draft, untrimmed, is appended as an own line, the draft is
      cleared, every contact with the selected id takes the draft as its last
      message with timestamp `now`, and those contacts move to the top of the
      list, each block keeping its order. The selected contact record itself
      is not refreshed. */
  function SendMessage(w: Widget, id: string, clock: string): (r: Widget)
    ensures !CanSend(w) ==> r == w
    ensures CanSend(w) ==> r.messages == w.messages + [Line(id, CurrentUser, w.newMessage, clock, true)]
    ensures CanSend(w) ==> r.newMessage == ""
    ensures r.showUserList == w.showUserList && r.selectedUser == w.selectedUser
    ensures CanSend(w) ==> r.users == Bump(w.users, w.selectedUser.value.id, w.newMessage)
  {
    if !CanSend(w) then w
    else
      w.(messages := w.messages + [Line(id, CurrentUser, w.newMessage, clock, true)],
         newMessage := "",
         users := Bump(w.users, w.selectedUser.value.id, w.newMessage))
  }

  /** Contacts whose id is not `k` come through the last-message update
      untouched. */
  lemma UntouchedKept(users: seq<Contact>, k: string, text: string)
    ensures Filter(Update(users, ContactId, k, Touch(text)), Not(KeyIs(ContactId, k))) == Filter(users, Not(KeyIs(ContactId, k)))
  {
    forall x
      ensures ContactId(Touch(text)(x)) == ContactId(x)
    {
    }
    FilterUpdateOthers(users, ContactId, k, Touch(text));
  }

  /** When `k` is listed exactly once, the bumped list has that contact at
      the top, changed only in its last message and timestamp, and every
      other contact after it in the order they had. */
  lemma BumpMovesContactToTop(users: seq<Contact>, k: string, text: string)
    requires Unique(users, ContactId)
    requires Has(users, ContactId, k)
    ensures var r := Bump(users, k, text);
            && r[0].id == k
            && r[0].lastMessage == text
            && (forall p :: 0 <= p < |users| && users[p].id == k ==> r[0] == users[p].(lastMessage := text, timestamp := "now"))
            && r[1..] == Filter(users, Not(KeyIs(ContactId, k)))
  {
    var p :| 0 <= p < |users| && users[p].id == k;
    var top := users[p].(lastMessage := text, timestamp := "now");
    var rest := Filter(users, Not(KeyIs(ContactId, k)));
    BumpAt(users, k, text, p);
    assert ([top] + rest)[0] == top && ([top] + rest)[1..] == rest;
    forall q | 0 <= q < |users| && users[q].id == k
      ensures q == p
    {
    }
  }

  /** The bumped list when the only contact with id `k` sits at `p`. */
  lemma BumpAt(users: seq<Contact>, k: string, text: string, p: int)
    requires Unique(users, ContactId)
    requires 0 <= p < |users| && users[p].id == k
    ensures Bump(users, k, text) == [users[p].(lastMessage := text, timestamp := "now")] + Filter(users, Not(KeyIs(ContactId, k)))
  {
    var touched := Update(users, ContactId, k, Touch(text));
    assert Bump(users, k, text) == Filter(touched, KeyIs(ContactId, k)) + Filter(touched, Not(KeyIs(ContactId, k)));
    UntouchedKept(users, k, text);
    forall i | 0 <= i < |touched| && i != p
      ensures !KeyIs(ContactId, k)(touched[i])
    {
      assert users[i].id != users[p].id;
    }
    FilterSingle(touched, KeyIs(ContactId, k), p);
  }

  /** Sending with a contact selected and a non-blank draft: when its id is
      listed exactly once, that contact heads the list afterwards with only
      its last message and timestamp changed. */
  lemma SendMessageMovesContactToTop(w: Widget, id: string, clock: string)
    requires CanSend(w)
    requires Unique(w.users, ContactId)
    requires Has(w.users, ContactId, w.selectedUser.value.id)
    ensures var r := SendMessage(w, id, clock);
            && r.users[0].id == w.selectedUser.value.id
            && r.users[0].lastMessage == w.newMessage
            && (forall p :: 0 <= p < |w.users| && w.users[p].id == w.selectedUser.value.id ==>
                  r.users[0] == w.users[p].(lastMessage := w.newMessage, timestamp := "now"))
            && r.users[1..] == Filter(w.users, Not(KeyIs(ContactId, w.selectedUser.value.id)))
  {
    BumpMovesContactToTop(w.users, w.selectedUser.value.id, w.newMessage);
  }

  /** Enter without Shift sends; any other key leaves the widget alone. */
  function KeyPress(w: Widget, key: string, shift: bool, id: string, clock: string): (r: Widget)
    ensures key != "Enter" || shift ==> r == w
    ensures key == "Enter" && !shift ==> r == SendMessage(w, id, clock)
  {
    if key == "Enter" && !shift then SendMessage(w, id, clock) else w
  }
}
