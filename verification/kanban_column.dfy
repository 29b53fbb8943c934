/** One column of the Kanban board (components/KanbanColumn.tsx): its header
    count, its total value and its cards. */
module KanbanColumn {
  import opened Crm

  /** A `KanbanCard`, keyed by its lead's id. */
  datatype Card = Card(key: string, lead: Lead)

  /** What a column shows: its status with the number of leads, the sum of
      their values, and one card per lead. */
  datatype ColumnView = ColumnView(status: LeadStatus, count: nat, total: int, cards: seq<Card>)

  /** The column for `leads`: `leads.length`, `columnTotal` and `leads.map`. */
  function RenderColumn(status: LeadStatus, leads: seq<Lead>): (view: ColumnView)
    ensures view.status == status && view.count == |leads|
    ensures |view.cards| == |leads|
    ensures forall i :: 0 <= i < |leads| ==> view.cards[i] == Card(leads[i].id, leads[i])
  {
    ColumnView(status, |leads|, TotalValue(leads), seq(|leads|, i requires 0 <= i < |leads| => Card(leads[i].id, leads[i])))
  }

  /** The total is the sum of the cards' values, 0 for an empty column, and
      splitting a column splits its total. */
  lemma ColumnTotal(status: LeadStatus, leads: seq<Lead>, more: seq<Lead>)
    ensures RenderColumn(status, []).total == 0
    ensures RenderColumn(status, leads).total == TotalValue(leads)
    ensures RenderColumn(status, leads + more).total ==
      RenderColumn(status, leads).total + RenderColumn(status, more).total
    ensures |leads| > 0 ==>
      RenderColumn(status, leads).total == leads[0].value + RenderColumn(status, leads[1..]).total
  {
    TotalValueConcat(leads, more);
  }
}
