# CRM workspace: store, sessions and view logic in Dafny

This project models a small CRM. It has two parts:

- **The back end** (server/index.js) keeps eight collections in one JSON file: users, sessions, contacts, leads, tasks, events, documents and emails. On every request it:
  - reads the file and adds any collection that is missing;
  - finds the caller through a bearer-token session, falling back to a demo user;
  - serves owner-scoped list, create, update and delete handlers, plus the profile routes.
- **The front-end views** compute what they show from the lists the data service returns:
  - the calendar grid;
  - document, contact and email filters;
  - the kanban board and drag-and-drop;
  - dashboard and report figures;
  - the activity log;
  - the toast list.

The module layout:

- `Store`:
  - the document is a value (`Document`);
  - the file is the field `disk` of the class `Server`, and `writes` counts how often it was rewritten;
  - each handler is a method proved against specification functions (`Loaded`, `AfterAuth`, `OwnedBy`, `NewItem`, `Remaining`, and others);
  - lemmas state the properties of those functions.
- `WidenSchema`, `Tally.Tally`, `Calendar.RenderGrid`, `Reports.MonthlyRevenue` and `Documents.ClassifyUpload` keep the loops and reassignments of their source as imperative methods.
- The views are pure: filters, maps and object literals become functions, with lemmas beside them.
- Inputs the source takes from the environment are parameters:
  - the clock (`now`, ISO timestamps, today's date);
  - the random or time-based ids;
  - how a date string parses (`monthOf`, `timeOf`).
- Shared pieces:
  - `Seqs` models `filter`, `find`, `findIndex` and `slice`;
  - `Strings` models `split`, `toLowerCase`/`toUpperCase`, `includes`, `padStart` and number printing;
  - `Crm` holds the record kinds of types.ts and the sum of deal values.

## Model

| member | source | states |
|---|---|---|
| Store.Widen | server/index.js:56-63 | every collection is present afterwards; collections already present are kept as they were; the ones added are empty |
| Store.WidenSchema | server/index.js:56-67 | the `forEach` over the collection names yields the widened document, and `needsSave` is set exactly when some collection was missing |
| Store.Loaded | server/index.js:49-74 | what `readDB` returns always holds every collection, and a parsed file's collections come back unchanged |
| Store.WidenComplete | server/index.js:58-63 | a document that already has every collection is returned as it is |
| Store.ReadIsStable | server/index.js:49-74 | after one read, reading again returns the same document and rewrites nothing; a parsed file is rewritten to exactly what was returned |
| Store.Server.WriteDB | server/index.js:76-82 | the file holds the new document and one more write is counted |
| Store.Server.ReadDB | server/index.js:49-74 | returns `Loaded` of the file, and rewrites the file only when a collection was missing |
| Store.BearerToken | server/index.js:98-101 | the token is the second space-separated word of the header; a token found is non-empty and contains no space |
| Store.BearerTokenOfClientHeader | services/dataService.ts:35 | the header the client builds, `Bearer <token>`, yields exactly that token |
| Store.CallerIsFirstMatch | server/index.js:109-115 | the caller is the `userId` of the first unexpired session that holds the token |
| Store.CallerFallback | server/index.js:113-119 | without a token, or with no unexpired session holding it, the caller is `demo-user-id` |
| Store.GarbageCollection | server/index.js:103-108 | with a token, the sessions afterwards are exactly the unexpired ones, in their order; the file is rewritten exactly when some session had expired |
| Store.AfterAuth | server/index.js:93-135 | the document after `authenticate` still holds every collection |
| Store.DemoUserOnce | server/index.js:121-131 | the fallback adds the demo user only when none exists, so afterwards there is exactly one where there was none, and the count is otherwise unchanged |
| Store.Server.Authenticate | server/index.js:93-135 | sets the caller by the session rule, and leaves the file and write count as the garbage collection and demo insertion dictate |
| Store.OwnedByExactly | server/index.js:196-202 | the list handler answers exactly the caller's records, in stored order |
| Store.Server.GetAll | server/index.js:196-202 | answers `OwnedBy` of the stored collection, and writes only what the read itself writes |
| Store.NewItem | server/index.js:205-210 | the new record has the body's fields plus `id`, `createdAt` and `userId`; a body field of the same name wins over the stamp |
| Store.CreateThenList | server/index.js:203-215 | after a create, a user's list gains the new record at its end exactly when the record's owner is that user, and is otherwise unchanged; the owner is the body's `userId` when it has one, else the caller |
| Store.Server.Create | server/index.js:203-215 | appends the new record to its collection and writes the file once |
| Store.MergeKeepsStamps | server/index.js:225-226 | an update keeps the record's `id`, `userId` and `createdAt`, and takes every other body field |
| Store.UpdateIsolation | server/index.js:219-227 | updating a record of the caller leaves every other owner's records as they were |
| Store.Server.Update | server/index.js:216-230 | updates the caller's first record with that id and answers it; otherwise answers not-found and writes nothing |
| Store.RemainingExactly | server/index.js:234-238 | delete keeps exactly the records it does not address, in order; the list shrinks exactly when the caller has a record with that id |
| Store.DeleteTwice | server/index.js:231-243 | a second delete of the same id finds nothing, so it answers not-found and changes nothing |
| Store.DeleteIsolation | server/index.js:234 | deleting leaves every other owner's records as they were |
| Store.Server.Delete | server/index.js:231-243 | removes the caller's records with that id and writes; when there are none, it answers not-found and writes nothing |
| Store.PublicView | server/index.js:172 | the profile sent has no password, and every other field is the stored one |
| Store.ProfileMerge | server/index.js:182-183 | a profile update keeps the user's id and stored password, and takes every other body field |
| Store.Server.GetUser | server/index.js:158-174 | answers the caller's record without its password, or the demo profile when the caller has none |
| Store.Server.PutUser | server/index.js:177-190 | merges the body minus password and id onto the caller's record and answers it without the password; with no record, echoes the body and writes nothing |
| Calendar.DaysIn | components/Tasks.tsx:26 | a month has 28 to 31 days |
| Calendar.MakeDate | components/Tasks.tsx:33-39 | `new Date(y, m, d)` always lands on a valid date, carrying the month into the year |
| Calendar.DaysInMonthIsLength | components/Tasks.tsx:26 | day 0 of the next month is the last day of the shown month, so `daysInMonth` is the month's length |
| Calendar.Weekday | components/Tasks.tsx:27 | a weekday is between 0 and 6 |
| Calendar.FirstDayOfMonth | components/Tasks.tsx:27 | the first day of a month has a weekday between 0 and 6 |
| Calendar.NextMonthContinuesWeek | components/Tasks.tsx:26-27 | the next month starts `daysInMonth` weekdays after this month's first day |
| Calendar.MonthSteps | components/Tasks.tsx:33-39 | the previous and next buttons step one month to day 1, wrapping the year, and undo each other |
| Calendar.DateKeyFormat | components/Tasks.tsx:46-49 | a day's key is the year, `-`, the two-digit month, `-`, the two-digit day |
| Calendar.DateKeyInjective | components/Tasks.tsx:45-50 | two days share a key only if they are the same day |
| Calendar.EventsForDayExactly | components/Tasks.tsx:45-51 | a day shows exactly the events dated with its key, in order |
| Calendar.EventOnOneDay | components/Tasks.tsx:45-51 | an event shows on at most one day of the month |
| Calendar.NewEventDraft | components/Tasks.tsx:62-64 | a new event draft is a meeting |
| Calendar.NewEventDraftDate | components/Tasks.tsx:62-64 | the draft takes the clicked day's key, or else today's date from the ISO timestamp |
| Calendar.TotalSlotsIsLeastWeekMultiple | components/Tasks.tsx:97 | the grid is whole weeks: the fewest that hold the leading blanks and every day |
| Calendar.RenderGrid | components/Tasks.tsx:95-117 | the loop builds `totalSlots` cells, each one the cell its index calls for |
| Calendar.RenderSlot | components/Tasks.tsx:100-146 | one pass of the loop: a blank outside the month, otherwise the day's number, key, events and today mark, as cell `i` of the grid calls for |
| Calendar.GridCellOfDay | components/Tasks.tsx:99-117 | day `d` sits in cell `firstDayOfMonth + d - 1`, inside the grid, with the day's `YYYY-MM-DD` key and exactly its events |
| Calendar.GridDayCellPosition | components/Tasks.tsx:100-101 | a cell showing a day sits at that day's position, and the day is within the month |
| Calendar.GridBlankCells | components/Tasks.tsx:101-106 | every cell before the first day or after the last is blank |
| Calendar.TodayCell | components/Tasks.tsx:109-112 | a cell is marked today exactly when its day, month and year are today's |
| Crm.TotalValue | components/Dashboard.tsx:76 | the sum of an empty list is 0, and the sum of non-negative values is non-negative |
| Crm.TotalValueConcat | components/Dashboard.tsx:76 | the sum over two lists together is the sum of their sums |
| Crm.SaveDispatch | components/Tasks.tsx:86-90 | save calls update exactly when editing a record with a non-empty id, and create otherwise, passing the record on |
| Crm.IsoDatePartOf | components/Documents.tsx:60 | the date part of an ISO timestamp is the text before its `T` |
| Documents.FilterDocsExactly | components/Documents.tsx:24-28 | `All` shows everything, `Sheets` exactly the XLSX documents, and `PDF`/`DOCX` exactly their type, in order; images show only under `All` |
| Documents.ExtensionAfterLastDot | components/Documents.tsx:50 | the extension is the upper-cased text after the last dot |
| Documents.ExtensionTypeTable | components/Documents.tsx:51-54 | PDF, DOC/DOCX and XLS/XLSX map to their types, and every other extension maps to IMG |
| Documents.ClassifyUpload | components/Documents.tsx:51-54 | the reassigned `type` ends as the table's type for the extension |
| Documents.Upload | components/Documents.tsx:46-62 | no file, no document; otherwise name, extension's type, today's date and owner `You` |
| Contacts.FilterContactsExactly | components/Contacts.tsx:47-54 | a contact is kept exactly when the lower-cased term occurs in its lower-cased name, company or email (a missing field is ""), in order |
| Contacts.EmptySearchKeepsAll | components/Contacts.tsx:48-53 | an empty search keeps every contact, even ones missing fields |
| Contacts.NewContactForm | components/Contacts.tsx:77 | a new contact starts with status Active and no id |
| Contacts.ContactToSaveDefaults | components/Contacts.tsx:103-108 | saving fills a missing company, role or phone with "" and keeps every other field; doing it twice changes nothing more |
| Contacts.SaveContact | components/Contacts.tsx:110-116 | updates exactly when editing a contact with an id, otherwise creates; the normalised contact is sent |
| KanbanColumn.RenderColumn | components/KanbanColumn.tsx:25-31 | the header count is the number of leads, with one card per lead, in order, keyed by its id |
| KanbanColumn.ColumnTotal | components/KanbanColumn.tsx:16 | an empty column totals 0; the total is the sum of the leads' values and adds over concatenation |
| Pipeline.Board | components/Pipeline.tsx:127-131 | one column per status, in the fixed order |
| Pipeline.LeadInOneColumn | components/Pipeline.tsx:127-131 | the statuses are distinct and cover every status, and a lead appears in exactly the column of its status, in order |
| Pipeline.ColumnCountsAddUp | components/Pipeline.tsx:131 | the column counts add up to the number of leads |
| Pipeline.ColumnTotalsAddUp | components/Pipeline.tsx:131 | the column totals add up to the total value of all leads |
| Pipeline.BoardAddsUp | components/Pipeline.tsx:10 | over the rendered board, counts add up to the number of leads and totals to the pipeline value |
| Pipeline.HandleDrop | components/Pipeline.tsx:36-52 | the list keeps its length, and without an update it is unchanged |
| Pipeline.HandleDropEffect | components/Pipeline.tsx:39-43 | nothing happens exactly when the id is unknown or its first lead already has the status; otherwise every lead with the id becomes the sent copy, which is the first lead with that id with only its status changed, and the rest are kept |
| Pipeline.HandleDropMovesOneLead | components/Pipeline.tsx:43 | with unique ids, only the dropped lead changes, and only in its status |
| Pipeline.NewLeadForm | components/Pipeline.tsx:58-62 | a new deal starts with status New, value 0 and no id |
| Pipeline.DeleteRequest | components/Pipeline.tsx:70-81 | delete is requested exactly when the deal has a non-empty id and the user confirms |
| Pipeline.SaveLead | components/Pipeline.tsx:83-98 | updates exactly when editing a deal with an id, otherwise creates |
| Dashboard.ActiveDealsPartition | components/Dashboard.tsx:75 | active, won and lost deals add up to all deals |
| Dashboard.DueTasksPartition | components/Dashboard.tsx:77 | due and completed tasks add up to all tasks; all are due exactly when none is completed |
| Tally.Tally | components/Dashboard.tsx:80-84 | one entry per distinct key, in order of first occurrence; each counts its key's occurrences (at least 1), and the counts add up to the number of keys |
| Tally.TallyFound | components/Dashboard.tsx:81 | adding 1 to a key already present keeps every count equal to that key's occurrences so far, the keys in first-occurrence order, and the total one more |
| Tally.TallyNew | components/Dashboard.tsx:81 | a key not yet present enters at the end with count 1, keeping every count equal to its key's occurrences so far and the total one more |
| Dashboard.DealsByStage | components/Dashboard.tsx:80-84 | one entry per status present, each with a distinct status; its count is the number of leads of that status, at least 1; the counts add up to the number of leads |
| Dashboard.UpcomingTasks | components/Dashboard.tsx:211 | the first six tasks, or all when there are fewer, in order |
| Reports.NewLeadsCount | components/Reports.tsx:60 | at most the number of leads, and equal exactly when every lead is New |
| Reports.WonLeadsCount | components/Reports.tsx:61 | at most the number of leads, and equal exactly when every lead is won |
| Reports.ConversionRate | components/Reports.tsx:62 | the rate is the label `0` exactly when there are no leads; otherwise it is 100 times the number of won leads over the number of leads, so between 0 and 100 |
| Reports.AverageDealSize | components/Reports.tsx:63 | the label `0` exactly when there are no leads; otherwise the total value over the number of leads |
| Reports.EffectiveSource | components/Reports.tsx:69 | a lead's source, or `Other` when it is missing or empty; never empty |
| Reports.SourceCounts | components/Reports.tsx:68-73 | one entry per distinct source, counting its leads; the counts add up to the number of leads |
| Reports.UnsourcedCountsAsOther | components/Reports.tsx:69 | a lead without a source is counted under `Other` |
| Reports.MonthlyRevenue | components/Reports.tsx:76-91 | six buckets, Jan to Jun, each holding the value of the leads created in that month |
| Reports.MonthRevenueAppend | components/Reports.tsx:81-91 | one more lead adds its value to its own month's bucket only |
| Reports.RevenuesAreMonthRevenues | components/Reports.tsx:81-91 | after the in-place `forEach` each bucket holds the total value of the leads created in its month, as filtering and summing would give |
| Reports.BucketsCoverFirstHalf | components/Reports.tsx:81-91 | the six buckets together hold the value of exactly the leads created in January to June |
| Reports.LeadInOneBucket | components/Reports.tsx:87 | a lead adds its value to at most one bucket |
| Reports.Activities | components/Reports.tsx:43-46 | the leads' entries (`New Deal: ` and the creation date), then the tasks' (`Task Created: `, no date), then the emails' (`Email Sent: ` and the timestamp), one each, in list order |
| Reports.Insert | components/Reports.tsx:47-50 | insertion adds exactly the one entry |
| Reports.InsertOrdered | components/Reports.tsx:47-50 | insertion keeps an ordered log ordered |
| Reports.SortActivities | components/Reports.tsx:47-50 | the sort is a permutation, with dated entries before undated ones and newest first |
| Reports.ActivityLog | components/Reports.tsx:43-51 | at most 10 entries (all of them when there are fewer), in order |
| Reports.ActivityLogOrder | components/Reports.tsx:47-50 | a dated entry never follows an undated one, and dated entries run newest to oldest |
| Reports.ActivityLogEntries | components/Reports.tsx:43-51 | before truncation the log holds exactly the entries of every lead, task and email, and the log is its start |
| EmailView.InitialView | components/Email.tsx:10-15 | the view opens on the inbox with nothing selected and an empty, closed compose form |
| EmailView.FilteredEmailsExactly | components/Email.tsx:26 | the list shows exactly the emails of the active folder, in order |
| EmailView.FoldersAddUp | components/Email.tsx:88 | the four folders together list every email once |
| EmailView.UnreadBadgeBounds | components/Email.tsx:101 | the badge counts unread inbox emails: at most the inbox size, all of it exactly when no inbox email is read, and zero exactly when all are read |
| EmailView.SelectEmail | components/Email.tsx:28-34 | the email becomes the selection, and its id is sent to be marked read exactly when it was unread |
| EmailView.MarkRead | server/index.js:216-229 | the first email with that id becomes read and every other email stays as it was; with no such email the list is unchanged |
| EmailView.SelectLowersBadge | components/Email.tsx:30-33 | selecting an unread inbox email lowers the badge by exactly one; a read email sends nothing; after the reload, selecting again sends nothing |
| EmailView.Send | components/Email.tsx:45-62 | the message is from `You`, in Sent, read, carrying the form's to, subject and body; the form closes and clears, and the view switches to Sent |
| EmailView.SendShowsMessage | components/Email.tsx:57-61 | after the reload the Sent list ends with the new message, and the badge is unchanged |
| EmailView.DeleteEmail | components/Email.tsx:36-43 | the selection is cleared exactly when it is the deleted email |
| EmailView.OpenFolder | components/Email.tsx:91 | switching folder clears the selection |
| Toasts.ShowToast | components/Toast.tsx:24 | exactly one toast is appended at the end, and the earlier ones are unchanged |
| Toasts.RemoveToastExactly | components/Toast.tsx:32-34 | removal takes out exactly the toasts with that id and keeps the rest in order; it is a no-op exactly when no toast has that id |
| Toasts.RemoveTwice | components/Toast.tsx:27-29 | the timer firing after a manual removal changes nothing |
| Toasts.ShowThenRemove | components/Toast.tsx:22-30 | showing a toast with a fresh id and then removing it restores the list |
| Toasts.RemoveShowCommute | components/Toast.tsx:27-29 | removing one id and showing a toast with another commute |

## Left out

- File and HTTP plumbing are left out: `fs`, `JSON.stringify` formatting, express routing, CORS and status codes. Only the 404/not-found outcome is kept, as `Reply`/`deleted`.
- The signup, login and logout routes are left out; they are stubs that always answer the demo user.
- Password hashing and token generation are left out, because they are cryptography. Tokens and passwords are plain strings.
- Inputs from the environment are parameters. This covers the clock (`Date.now()`, `new Date().toISOString()`, today's date), the new record's id and the random toast id.
- The file the server creates at start-up when none exists is not modelled. A `Server` starts from any given file content.
- Concurrency is left out. Each request handler is one atomic step, so the read-modify-write race between overlapping requests is not modelled.
- `INITIAL_DATA` aliasing is left out. On an unparseable file `readDB` returns the shared `INITIAL_DATA` object, which later mutations alter in place; the model returns a fresh empty document each time.
- Store.Live: a session whose `expires` is not a number counts as expired. JavaScript's `>` coercion of strings and other values is not modelled.
- Nested JSON values (objects, arrays, fractional numbers) in records are left out. A field value is undefined, null, a boolean, an integer or a string.
- The model follows the code in these places:
  - create spreads the body after the stamps, so a body may set its own `id`, `createdAt` and `userId` (see `Store.NewItem`);
  - a missing or malformed `Authorization` header is not rejected; it falls back to the demo user;
  - an unparseable file is read as an empty document instead of failing.
- Calendar.MakeDate: `new Date(y, m, d)` is modelled only for days 0 to 28, the only ones the view passes. JavaScript's mapping of years 0 to 99 to 1900 to 1999 is not modelled.
- Strings.Lower and Strings.Upper: only ASCII letters change case. Unicode case mapping is left out.
- Reports.MonthlyRevenue and Reports.SortActivities: parsing a date string is a parameter (`monthOf`, `timeOf`), and an unparseable date is not modelled.
- Reports.SortActivities: the source's comparator is not a consistent order, because it answers 1 for two undated entries either way round. The model is a stable sort by "dated before undated, newer first", which is one order the comparator admits.
- Reports.ConversionRate and Reports.AverageDealSize: floating-point division, `toFixed` and locale formatting are left out. The KPIs are kept as a numerator over a denominator.
- The dashboard's revenue forecast, the document size label and all date and number display formatting are left out, because they are floating point and locale formatting.
- Tally.Tally: the dictionary is a plain map from string keys in insertion order. Three JavaScript behaviours of `{}` are not modelled. `Object.entries` lists integer-like keys first, in numeric order. A source named `__proto__` never becomes an entry, so the source counts then no longer add up to the number of leads. A source named after an inherited member such as `constructor` or `toString` starts from that function instead of 0 and gets a string count.
- Pipeline.HandleDrop: the optimistic update replaces every lead carrying the dragged id, as the source's `map` does. The error path that reloads from the server is left out.
- EmailView.MarkRead: the reloaded list is modelled as the first email with that id marked read, as the update handler does. The network round trip is left out.
- React state, effects, context (`useToast` outside a provider), timers, drag events, `window.confirm` (a parameter), modals and all JSX rendering are left out.
