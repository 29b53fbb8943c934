/** The mail view (components/Email.tsx): the folder list, the inbox badge,
    selecting, sending and deleting a message. The view's state is a value;
    each handler returns the new state together with the request it sends to
    the data service, and the list the view reloads afterwards is a parameter. */
module EmailView {
  import opened Wrappers
  import Seqs
  import opened Crm

  /** The compose form. */
  datatype ComposeForm = ComposeForm(to: string, subject: string, body: string)

  /** `activeFolder`, `selectedEmail`, `isComposeOpen` and `composeData`. */
  datatype ViewState = ViewState(activeFolder: Folder, selected: Option<Email>, composeOpen: bool, compose: ComposeForm)

  /** The state the view mounts with. */
  function InitialView(): (view: ViewState)
    ensures view.activeFolder == Inbox && view.selected.None? && !view.composeOpen
    ensures view.compose == ComposeForm("", "", "")
  {
    ViewState(Inbox, None, false, ComposeForm("", "", ""))
  }

  function InFolderTest(folder: Folder): Email -> bool
  {
    (e: Email) => e.folder == folder
  }

  /** `filteredEmails`. */
  function FilteredEmails(emails: seq<Email>, folder: Folder): seq<Email>
  {
    Seqs.Filter(emails, InFolderTest(folder))
  }

  /** The list shows exactly the emails of the active folder, in order, and the
      four folders share the emails out between them. */
  lemma FilteredEmailsExactly(emails: seq<Email>, folder: Folder)
    ensures forall e :: e in FilteredEmails(emails, folder) <==> e in emails && e.folder == folder
    ensures Seqs.IsSubsequence(FilteredEmails(emails, folder), emails)
    ensures FilteredEmails(emails, folder) == emails <==> forall i :: 0 <= i < |emails| ==> emails[i].folder == folder
  {
    Seqs.FilterIsSubsequence(emails, InFolderTest(folder));
    Seqs.FilterKeepsAll(emails, InFolderTest(folder));
  }

  /** Every email is listed in exactly one folder. */
  lemma {:induction false} FoldersAddUp(emails: seq<Email>)
    ensures |FilteredEmails(emails, Inbox)| + |FilteredEmails(emails, Sent)| +
      |FilteredEmails(emails, Drafts)| + |FilteredEmails(emails, Trash)| == |emails|
  {
    if |emails| > 0 {
      FoldersAddUp(emails[1..]);
    }
  }

  function UnreadInboxTest(): Email -> bool
  {
    (e: Email) => e.folder == Inbox && !e.read
  }

  /** The badge on the inbox button. */
  function UnreadBadge(emails: seq<Email>): nat
  {
    |Seqs.Filter(emails, UnreadInboxTest())|
  }

  /** The badge counts the unread inbox emails: never more than the inbox
      holds, and as many only when every inbox email is unread. */
  lemma {:induction false} UnreadBadgeBounds(emails: seq<Email>)
    ensures UnreadBadge(emails) <= |FilteredEmails(emails, Inbox)|
    ensures UnreadBadge(emails) == |FilteredEmails(emails, Inbox)| <==>
      forall i :: 0 <= i < |emails| && emails[i].folder == Inbox ==> !emails[i].read
    ensures UnreadBadge(emails) == 0 <==> forall i :: 0 <= i < |emails| && emails[i].folder == Inbox ==> emails[i].read
  {
    if |emails| > 0 {
      UnreadBadgeBounds(emails[1..]);
      var e := emails[0];
      assert forall i :: 1 <= i < |emails| ==> emails[i] == emails[1..][i - 1];
      if !(e.folder == Inbox && e.read) {
        assert (forall i :: 0 <= i < |emails| && emails[i].folder == Inbox ==> emails[i].read) <==>
          (e.folder != Inbox && forall i :: 0 <= i < |emails[1..]| && emails[1..][i].folder == Inbox ==> emails[1..][i].read);
      }
    }
  }

  /** What a click on an email does: the email becomes the selection, and the
      id to mark read is sent only when the email was unread. */
  datatype Selection = Selection(view: ViewState, markRead: Option<string>)

  /** `handleSelectEmail`. */
  function SelectEmail(view: ViewState, email: Email): (r: Selection)
    ensures r.view == view.(selected := Some(email))
    ensures r.markRead.Some? <==> !email.read
    ensures r.markRead.Some? ==> r.markRead.value == email.id
  {
    Selection(view.(selected := Some(email)), if email.read then None else Some(email.id))
  }

  function IdTest(id: string): Email -> bool
  {
    (e: Email) => e.id == id
  }

  /** The list as reloaded after `markEmailRead(id)`: the update handler sets
      `read` on the first email with that id. */
  function MarkRead(emails: seq<Email>, id: string): (r: seq<Email>)
    ensures |r| == |emails|
    ensures Seqs.FindIndex(emails, IdTest(id)).None? ==> r == emails
    ensures Seqs.FindIndex(emails, IdTest(id)).Some? ==>
      var i := Seqs.FindIndex(emails, IdTest(id)).value;
      r[i] == emails[i].(read := true) && emails[i].id == id &&
      (forall j :: 0 <= j < i ==> emails[j].id != id) &&
      forall j :: 0 <= j < |emails| && j != i ==> r[j] == emails[j]
  {
    match Seqs.FindIndex(emails, IdTest(id))
    case None => emails
    case Some(i) => emails[i := emails[i].(read := true)]
  }

  /** Selecting an unread inbox email takes exactly one off the badge (the
      email is the first with its id, as ids are unique); selecting one that is
      already read sends nothing, so the badge stays; and selecting the same
      email again after the reload sends nothing. */
  lemma SelectLowersBadge(view: ViewState, emails: seq<Email>, i: nat)
    requires i < |emails|
    requires forall j :: 0 <= j < i ==> emails[j].id != emails[i].id
    ensures var sel := SelectEmail(view, emails[i]);
      (sel.markRead.Some? && emails[i].folder == Inbox ==>
        UnreadBadge(MarkRead(emails, sel.markRead.value)) + 1 == UnreadBadge(emails)) &&
      (sel.markRead.None? ==> emails[i].read)
    ensures var after := MarkRead(emails, emails[i].id);
      after[i].read && SelectEmail(view, after[i]).markRead.None?
  {
    var e := emails[i];
    Seqs.FindFirstIsFirstMatch(emails, IdTest(e.id), i);
    assert Seqs.FindIndex(emails, IdTest(e.id)) == Some(i);
    if !e.read && e.folder == Inbox {
      Seqs.FilterUpdateLoses(emails, i, e.(read := true), UnreadInboxTest());
    }
  }

  /** The message `handleSend` posts (the server assigns its id). */
  datatype Outgoing = Outgoing(from: string, to: string, subject: string, body: string,
    timestamp: string, folder: Folder, read: bool, avatar: Option<string>)

  const MyAvatar := "https://i.pravatar.cc/150?u=me"

  /** `handleSend`: the message goes out from 'You', into Sent, already read,
      with the form's recipient, subject and body and the current time; the
      form closes and clears, and the view switches to Sent. */
  function Send(view: ViewState, isoNow: string): (r: (ViewState, Outgoing))
    ensures r.1.from == "You" && r.1.folder == Sent && r.1.read && r.1.avatar == Some(MyAvatar)
    ensures r.1.to == view.compose.to && r.1.subject == view.compose.subject && r.1.body == view.compose.body
    ensures r.1.timestamp == isoNow
    ensures r.0 == view.(composeOpen := false, compose := ComposeForm("", "", ""), activeFolder := Sent)
  {
    var message := Outgoing("You", view.compose.to, view.compose.subject, view.compose.body, isoNow, Sent, true, Some(MyAvatar));
    (view.(composeOpen := false, compose := ComposeForm("", "", ""), activeFolder := Sent), message)
  }

  /** The stored message, once the server has given it `id`. */
  function Stored(m: Outgoing, id: string): Email
  {
    Email(id, m.from, m.to, m.subject, m.body, m.timestamp, m.folder, m.read, m.avatar)
  }

  /** After sending, the reloaded list (the message appended by the create
      handler) shows the Sent folder with the new message last, and the
      badge has not moved. */
  lemma SendShowsMessage(view: ViewState, isoNow: string, emails: seq<Email>, id: string)
    ensures var (after, m) := Send(view, isoNow);
      FilteredEmails(emails + [Stored(m, id)], after.activeFolder) == FilteredEmails(emails, Sent) + [Stored(m, id)] &&
      UnreadBadge(emails + [Stored(m, id)]) == UnreadBadge(emails)
  {
    var m := Send(view, isoNow).1;
    Seqs.FilterConcat(emails, [Stored(m, id)], InFolderTest(Sent));
    Seqs.FilterConcat(emails, [Stored(m, id)], UnreadInboxTest());
  }

  /** `handleDelete`: the delete request goes out for `id`, and the selection is
      cleared only when it is the email deleted. */
  function DeleteEmail(view: ViewState, id: string): (r: ViewState)
    ensures r.activeFolder == view.activeFolder && r.composeOpen == view.composeOpen && r.compose == view.compose
    ensures r.selected.None? <==> view.selected.None? || view.selected.value.id == id
    ensures r.selected.Some? ==> r.selected == view.selected
  {
    if view.selected.Some? && view.selected.value.id == id then view.(selected := None) else view
  }

  /** The folder buttons: switching folder clears the selection. */
  function OpenFolder(view: ViewState, folder: Folder): (r: ViewState)
    ensures r.activeFolder == folder && r.selected.None?
    ensures r.composeOpen == view.composeOpen && r.compose == view.compose
  {
    view.(activeFolder := folder, selected := None)
  }
}
