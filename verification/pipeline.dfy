/** The pipeline view (components/Pipeline.tsx): the six status columns of
    the Kanban board, moving a deal by dropping it on a column, and the deal
    form's defaults and guards. */
module Pipeline {
  import opened Wrappers
  import Seqs
  import opened Crm
  import KanbanColumn

  /** `columns`, in board order. */
  const Columns: seq<LeadStatus> := [New, Qualified, ProposalSent, Negotiation, ClosedWon, ClosedLost]

  function StatusTest(status: LeadStatus): Lead -> bool
  {
    (l: Lead) => l.status == status
  }

  /** The leads of one column: `leads.filter(lead => lead.status === status)`. */
  function ColumnLeads(leads: seq<Lead>, status: LeadStatus): seq<Lead>
  {
    Seqs.Filter(leads, StatusTest(status))
  }

  /** The board: one rendered column per status, in column order. */
  function Board(leads: seq<Lead>): (board: seq<KanbanColumn.ColumnView>)
    ensures |board| == |Columns|
    ensures forall c :: 0 <= c < |board| ==> board[c].status == Columns[c]
  {
    seq(|Columns|, c requires 0 <= c < |Columns| => KanbanColumn.RenderColumn(Columns[c], ColumnLeads(leads, Columns[c])))
  }

  /** The column of a status. */
  function IndexOfStatus(status: LeadStatus): (c: nat)
    ensures c < |Columns| && Columns[c] == status
  {
    match status
    case New => 0
    case Qualified => 1
    case ProposalSent => 2
    case Negotiation => 3
    case ClosedWon => 4
    case ClosedLost => 5
  }

  /** Every status has a column, no two columns share one, and a lead sits in
      exactly the column of its status, in the order of the list. */
  lemma LeadInOneColumn(leads: seq<Lead>, l: Lead)
    ensures forall c, d :: 0 <= c < d < |Columns| ==> Columns[c] != Columns[d]
    ensures l.status in Columns
    ensures forall c :: 0 <= c < |Columns| ==>
      (l in ColumnLeads(leads, Columns[c]) <==> l in leads && Columns[c] == l.status)
    ensures forall c :: 0 <= c < |Columns| ==> Seqs.IsSubsequence(ColumnLeads(leads, Columns[c]), leads)
  {
    assert l.status == Columns[IndexOfStatus(l.status)];
    forall c | 0 <= c < |Columns|
      ensures Seqs.IsSubsequence(ColumnLeads(leads, Columns[c]), leads)
    {
      Seqs.FilterIsSubsequence(leads, StatusTest(Columns[c]));
    }
  }

  /** The column counts add up to the number of leads. */
  lemma {:induction false} ColumnCountsAddUp(leads: seq<Lead>)
    ensures |ColumnLeads(leads, New)| + |ColumnLeads(leads, Qualified)| + |ColumnLeads(leads, ProposalSent)| +
      |ColumnLeads(leads, Negotiation)| + |ColumnLeads(leads, ClosedWon)| + |ColumnLeads(leads, ClosedLost)| == |leads|
  {
    if |leads| > 0 {
      ColumnCountsAddUp(leads[1..]);
    }
  }

  /** Taking the first lead off moves its value out of its own column only. */
  lemma ColumnTotalStep(leads: seq<Lead>, s: LeadStatus)
    requires |leads| > 0
    ensures TotalValue(ColumnLeads(leads, s)) ==
      (if leads[0].status == s then leads[0].value else 0) + TotalValue(ColumnLeads(leads[1..], s))
  {
    if leads[0].status == s {
      TotalValueConcat([leads[0]], ColumnLeads(leads[1..], s));
    }
  }

  /** The column totals add up to the value of all leads. */
  lemma {:induction false} ColumnTotalsAddUp(leads: seq<Lead>)
    ensures TotalValue(ColumnLeads(leads, New)) + TotalValue(ColumnLeads(leads, Qualified)) +
      TotalValue(ColumnLeads(leads, ProposalSent)) + TotalValue(ColumnLeads(leads, Negotiation)) +
      TotalValue(ColumnLeads(leads, ClosedWon)) + TotalValue(ColumnLeads(leads, ClosedLost)) == TotalValue(leads)
  {
    if |leads| > 0 {
      ColumnTotalsAddUp(leads[1..]);
      ColumnTotalStep(leads, New);
      ColumnTotalStep(leads, Qualified);
      ColumnTotalStep(leads, ProposalSent);
      ColumnTotalStep(leads, Negotiation);
      ColumnTotalStep(leads, ClosedWon);
      ColumnTotalStep(leads, ClosedLost);
    }
  }

  /** The board's headers count every lead once and its totals add up to the
      pipeline value. */
  lemma BoardAddsUp(leads: seq<Lead>)
    ensures var board := Board(leads);
      board[0].count + board[1].count + board[2].count + board[3].count + board[4].count + board[5].count == |leads|
    ensures var board := Board(leads);
      board[0].total + board[1].total + board[2].total + board[3].total + board[4].total + board[5].total ==
        TotalValue(leads)
  {
    ColumnCountsAddUp(leads);
    ColumnTotalsAddUp(leads);
  }

  function IdTest(id: string): Lead -> bool
  {
    (l: Lead) => l.id == id
  }

  /** The outcome of `handleDrop`: the new list and the lead sent to the
      data service, if any. */
  datatype Drop = Drop(leads: seq<Lead>, update: Option<Lead>)

  /** `handleDrop`: find the dragged lead; if it exists and its status
      differs, replace every lead with that id by a copy with the new status
      and send that copy. */
  function HandleDrop(leads: seq<Lead>, leadId: string, newStatus: LeadStatus): (drop: Drop)
    ensures |drop.leads| == |leads|
    ensures drop.update.None? ==> drop.leads == leads
  {
    var lead := Seqs.FindFirst(leads, IdTest(leadId));
    if lead.Some? && lead.value.status != newStatus then
      var updatedLead := lead.value.(status := newStatus);
      Drop(seq(|leads|, i requires 0 <= i < |leads| => if leads[i].id == leadId then updatedLead else leads[i]),
        Some(updatedLead))
    else Drop(leads, None)
  }

  /** An unknown id, or a drop on the dragged lead's own column, changes
      nothing and sends nothing; the dragged lead is the first with that id.
      Otherwise the list keeps its length and order, every
      lead with another id is kept, and the sent copy is the first lead with
      that id with only its status changed. */
  lemma HandleDropEffect(leads: seq<Lead>, leadId: string, newStatus: LeadStatus)
    ensures var drop := HandleDrop(leads, leadId, newStatus);
      drop.update.None? <==>
        forall i :: 0 <= i < |leads| && leads[i].id == leadId && (forall j :: 0 <= j < i ==> leads[j].id != leadId) ==>
          leads[i].status == newStatus
    ensures var drop := HandleDrop(leads, leadId, newStatus);
      drop.update.Some? ==>
        forall i :: 0 <= i < |leads| ==>
          drop.leads[i] == if leads[i].id == leadId then drop.update.value else leads[i]
    ensures var drop := HandleDrop(leads, leadId, newStatus);
      drop.update.Some? ==>
        (exists i :: 0 <= i < |leads| && leads[i].id == leadId && (forall j :: 0 <= j < i ==> leads[j].id != leadId) &&
          drop.update.value == leads[i].(status := newStatus))
  {
    var found := Seqs.FindIndex(leads, IdTest(leadId));
    if found.Some? {
      var i := found.value;
      assert Seqs.FindFirst(leads, IdTest(leadId)) == Some(leads[i]);
      assert leads[i].id == leadId && forall j :: 0 <= j < i ==> leads[j].id != leadId;
    }
  }

  /** With unique ids, only the dropped lead changes, and only in its status. */
  lemma HandleDropMovesOneLead(leads: seq<Lead>, leadId: string, newStatus: LeadStatus)
    requires forall i, j :: 0 <= i < j < |leads| ==> leads[i].id != leads[j].id
    ensures var drop := HandleDrop(leads, leadId, newStatus);
      forall i :: 0 <= i < |leads| ==>
        drop.leads[i] == if leads[i].id == leadId then leads[i].(status := newStatus) else leads[i]
  {
    HandleDropEffect(leads, leadId, newStatus);
  }

  /** The deal form: every field of a lead, each possibly missing. */
  datatype LeadForm = LeadForm(
    id: Option<string>,
    dealName: Option<string>,
    companyName: Option<string>,
    contactName: Option<string>,
    value: Option<int>,
    status: Option<LeadStatus>)

  /** `handleAddNew`: a new deal starts with status New and value 0. */
  function NewLeadForm(): (form: LeadForm)
    ensures form.status == Some(New) && form.value == Some(0) && form.id.None?
  {
    LeadForm(None, None, None, None, Some(0), Some(New))
  }

  /** `handleDelete`: the id to delete, asked only for a deal with an id and
      only once the user confirms. */
  function DeleteRequest(current: LeadForm, confirmed: bool): (target: Option<string>)
    ensures target.Some? <==> current.id.Some? && current.id.value != "" && confirmed
    ensures target.Some? ==> target == current.id
  {
    if current.id.Some? && current.id.value != "" && confirmed then current.id else None
  }

  /** `handleSaveLead`: update only when editing a deal with an id. */
  function SaveLead(isEditing: bool, current: LeadForm): (call: SaveCall<LeadForm>)
    ensures call.UpdateCall? <==> isEditing && current.id.Some? && current.id.value != ""
    ensures call.record == current
  {
    SaveDispatch(isEditing, current.id, current)
  }
}
