/** The CRM's record kinds as the views see them (types.ts), and the small
    pieces of logic several views share. Numbers the source keeps as JavaScript
    numbers (deal values) are integers here. */
module Crm {
  import opened Wrappers
  import Seqs
  import Strings

  datatype LeadStatus = New | Qualified | ProposalSent | Negotiation | ClosedWon | ClosedLost

  datatype Lead = Lead(
    id: string,
    dealName: string,
    companyName: string,
    contactName: string,
    value: int,
    status: LeadStatus,
    source: Option<string>,
    createdAt: Option<string>)

  datatype TaskStatus = NotStarted | InProgress | Completed | Overdue

  datatype Task = Task(id: string, title: string, dueDate: string, assignee: string, status: TaskStatus)

  datatype EventType = Meeting | TaskEvent | Deadline

  datatype CalendarEvent = CalendarEvent(id: string, title: string, date: string, eventType: EventType)

  datatype DocType = PDF | DOCX | XLSX | IMG

  datatype Doc = Doc(id: string, name: string, docType: DocType, size: string, dateModified: string, owner: string)

  datatype Folder = Inbox | Sent | Trash | Drafts

  datatype Email = Email(
    id: string,
    from: string,
    to: string,
    subject: string,
    body: string,
    timestamp: string,
    folder: Folder,
    read: bool,
    avatar: Option<string>)

  datatype ContactStatus = Active | Inactive

  /** A contact as the contact list and its form hold it: every field may be
      missing (the form starts from `Partial<Contact>`, and the list guards
      against records without a name, company or email). */
  datatype Contact = Contact(
    id: Option<string>,
    name: Option<string>,
    email: Option<string>,
    phone: Option<string>,
    company: Option<string>,
    role: Option<string>,
    status: Option<ContactStatus>)

  /** `leads.reduce((sum, lead) => sum + lead.value, 0)`: the pipeline value
      on the dashboard, the total revenue in reports and a Kanban column
      total. It starts from 0, so no leads total 0, and deals of non-negative
      value never total less than 0. */
  function TotalValue(leads: seq<Lead>): (total: int)
    ensures |leads| == 0 ==> total == 0
    ensures (forall i :: 0 <= i < |leads| ==> leads[i].value >= 0) ==> total >= 0
  {
    if |leads| == 0 then 0 else leads[0].value + TotalValue(leads[1..])
  }

  /** The total of a concatenation is the sum of the totals. */
  lemma {:induction false} TotalValueConcat(a: seq<Lead>, b: seq<Lead>)
    ensures TotalValue(a + b) == TotalValue(a) + TotalValue(b)
  {
    if |a| > 0 {
      assert (a + b)[1..] == a[1..] + b;
      TotalValueConcat(a[1..], b);
    } else {
      assert a + b == b;
    }
  }

  /** Which data-service call a form's Save button makes. */
  datatype SaveCall<T> = UpdateCall(record: T) | CreateCall(record: T)

  /** `if (isEditing && current.id) update(record) else create(record)`: an id
      counts only when it is a non-empty string (JavaScript truthiness). */
  function SaveDispatch<T>(isEditing: bool, id: Option<string>, record: T): (call: SaveCall<T>)
    ensures call.UpdateCall? <==> isEditing && id.Some? && id.value != ""
    ensures call.record == record
  {
    if isEditing && id.Some? && id.value != "" then UpdateCall(record) else CreateCall(record)
  }

  /** `new Date().toISOString().split('T')[0]`: today's `YYYY-MM-DD`, given the
      ISO timestamp of "now". */
  function IsoDatePart(isoNow: string): string
  {
    Strings.Split(isoNow, 'T')[0]
  }

  /** For an ISO timestamp `date + "T" + time`, the date part is `date`. */
  lemma IsoDatePartOf(date: string, time: string)
    requires 'T' !in date
    ensures IsoDatePart(date + "T" + time) == date
  {
    Strings.SplitFirstWord(date, 'T', time);
  }
}
