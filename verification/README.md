# Content-task service core, in Dafny

This project models the logic of `app/server.js` in a small content-production
service. The service keeps tasks that are assigned to people and linked to
content items, references and prerequisite tasks. It answers chat commands
through a webhook and reports the tasks due today in a daily digest. Three
pieces have structure worth proving:

- **Daily digest** (`GET /api/digest`), in `digest.dfy`. It keeps the tasks
  whose status is `todo` or `in_progress` and that are due today. Each is
  labelled with its assignee's name, or `Unassigned`. The rows are ordered
  by label, then by task id, and each one is rendered as `• [label] title — due`.
  The lines are joined with newlines; when nothing qualifies, a fixed
  "nothing due today" line is used instead. A header line goes in front,
  the message goes to the configured chat, and the reply is `{sent, count}`.
  Failures give status 500 with `digest_failed`. All of this is pure
  functions over a table scan and a people map.
- **Webhook commands** (`POST /api/webhook`), in `webhook.dfy`. The trimmed
  text selects one of three commands:
  - `/newcontent …` stores a content item whose title is the rest of the
    text, trimmed, with a default when that is empty;
  - exactly `/id` answers with the chat id;
  - anything else gets a help reply.

  `Classify` is the pure dispatch. `HandleWebhook` is the handler's
  sequence of side effects against the store, and it always answers 200.
- **The relational schema** (`ensureSchema`), in `store.dfy`. The five
  tables are fields of the class `Store.Database`. Its `Valid` invariant
  holds the schema's constraints:
  - foreign keys;
  - `CHECK (task_id <> requires_task_id)`;
  - the primary key of `task_deps` (the edges are a set);
  - `UNIQUE` usernames;
  - keys handed out by `serial` sequences.

  Each INSERT and DELETE is a method that either applies the statement,
  with its `ON DELETE CASCADE` and `ON DELETE SET NULL` effects, or reports
  the violated constraint and leaves the rows unchanged. `DailyDigest` runs
  the digest on the stored rows and is independent of scan order.

`js_text.dfy` gives the JavaScript string operations the handlers use:
`trim`, `startsWith`, `replace` with a string pattern, and an integer's
decimal text. `schema.dfy` holds the row types.

One might expect three behaviours that the schema does not enforce: a
status that is always one of the four values, a repeated prerequisite
insert that does nothing, and a non-empty title. The model follows the
schema as written. First, the `status` column has `DEFAULT 'todo'` but no
`NOT NULL`, so an explicit NULL is stored. Such a task never appears in the
digest (`Schema.StoredStatus`, `Digest.UnqualifiedNeverListed`). Second, a
plain INSERT of an existing prerequisite pair is a unique violation, not a
silent no-op (`Store.EdgeInsertError`). Third, `title` is only `NOT NULL`,
so an empty title is accepted.

## Model

| member | source | states |
|---|---|---|
| JsText.Trim | app/server.js:38 | `trim()` yields the infix of its input with only JavaScript white space around it, and that infix neither starts nor ends with white space |
| JsText.SpanStart | app/server.js:38 | the scan stops at the first non-space, with only white space before it |
| JsText.SpanEnd | app/server.js:38 | the scan stops after the last non-space, with only white space after it |
| JsText.TrimFramed | app/server.js:38 | trimming white space around a text whose ends are not white space gives back exactly that text |
| JsText.TrimUnchanged | app/server.js:38 | a string with non-space ends is its own trim |
| JsText.TrimIdempotent | app/server.js:42 | trimming twice equals trimming once |
| JsText.IndexOf | app/server.js:42 | returns the first offset at which the pattern occurs, or none when it occurs nowhere |
| JsText.ReplaceFirst | app/server.js:42 | `replace` with a string pattern leaves the text alone when the pattern is absent; otherwise the result is the text with its first occurrence of the pattern replaced by the replacement, and nothing else changed |
| JsText.ReplacePrefix | app/server.js:40-42 | when the text starts with the pattern, removing the pattern drops exactly that prefix |
| JsText.NatText | app/server.js:49 | a natural number's text is non-empty decimal digits, with no leading zero, and reads back as the same number |
| JsText.IntText | app/server.js:49 | `${chatId}` gives a minus sign exactly for negative ids, then the digits with no leading zero (zero itself is `0`), and reads back as the same integer |
| Schema.StoredStatus | app/server.js:114 | an omitted status is stored as `todo`; an explicit NULL stays NULL; a given status is kept |
| Digest.Label | app/server.js:65-67 | a row's label is the assignee's name when the assignee row exists, else `Unassigned` |
| Digest.Select | app/server.js:64-68 | every open task due today is kept, and every kept row comes from such a task |
| Digest.LexLeTotal | app/server.js:69 | any two labels are comparable |
| Digest.LexLeAntisymmetric | app/server.js:69 | labels that compare both ways are equal |
| Digest.LexLeTransitive | app/server.js:69 | the label order is transitive |
| Digest.RowLeTotal | app/server.js:69 | the (label, id) order compares any two rows |
| Digest.RowLeAntisymmetric | app/server.js:69 | rows ordered both ways share label and id |
| Digest.RowLeTransitive | app/server.js:69 | the (label, id) order is transitive |
| Digest.Insert | app/server.js:69 | inserting a row adds exactly that row and keeps a sorted sequence sorted |
| Digest.SortRows | app/server.js:69 | `ORDER BY assignee, t.id` yields a sorted permutation of the selected rows |
| Digest.DigestRows | app/server.js:64-70 | the query result is sorted by (label, id) and holds exactly the open tasks due today |
| Digest.SortedUnique | app/server.js:69 | two sorted sequences with the same rows and unique ids are equal |
| Digest.SelectPermutation | app/server.js:64-68 | two scans with the same rows select the same multiset of rows |
| Digest.SelectIdKeyed | app/server.js:109 | since task ids are primary keys, no two selected rows share an id |
| Digest.DigestRowsScanOrder | app/server.js:64-70 | the digest rows do not depend on the order in which the table is scanned |
| Digest.UnqualifiedNeverListed | app/server.js:64-68 | a task that is `done`, `blocked`, stored with a NULL status, or not due today never appears among the digest rows |
| Digest.DigestCount | app/server.js:79 | `count` equals the number of distinct tasks that are open and due today |
| Digest.SelectCount | app/server.js:68 | the WHERE clause keeps one row per qualifying task id |
| Digest.Lines | app/server.js:73 | one rendered line per row, in row order |
| Digest.SplitJoin | app/server.js:73 | splitting the newline-joined lines gives them back when no line holds a newline |
| Digest.MessageLines | app/server.js:72-77 | when no rendered row line holds a newline (a title or name containing one breaks this, in the service too), the message splits into the header line, then one line per row in order, or the fixed line when no row qualifies |
| Digest.RunDigest | app/server.js:62-84 | a message is dispatched exactly when the query succeeds and a destination is set; the reply is `{sent, count}` with `sent` true exactly when a destination is set, whatever the count; a storage failure, or a send failure, gives 500 `digest_failed` |
| Digest.ScenarioSelect | app/server.js:64-68 | of alice's open task, bob's done task and an unassigned in-progress task, the query keeps alice's and the unassigned one |
| Digest.ScenarioSort | app/server.js:69 | `Unassigned` sorts before `alice` |
| Digest.ThreeTasksDueToday | app/server.js:64-79 | that scenario yields the unassigned task, then alice's, and `{sent: true, count: 2}` |
| Digest.NothingDueToday | app/server.js:72-79 | with no qualifying task the body is the fixed line and the count is 0 |
| Store.RefsWithoutTask | app/server.js:124 | deleting a task removes exactly the references it owns and keeps the others unchanged |
| Store.EdgesWithoutTask | app/server.js:131-132 | deleting a task removes exactly the edges with that task at either end |
| Store.TasksWithoutAssignee | app/server.js:112 | deleting a person nulls exactly the assignee links to that person and changes no other field |
| Store.TasksWithoutContent | app/server.js:111 | deleting a content item nulls exactly the content links to it and changes no other field |
| Store.EdgeInsertError | app/server.js:130-136 | a self-loop fails the CHECK, an existing pair fails the primary key, a missing end task fails a foreign key, and otherwise the edge is accepted |
| Store.ScansAgree | app/server.js:109 | any two full scans of the tasks table hold the same rows |
| Store.Database.constructor | app/server.js:87-137 | the schema starts with empty tables whose sequences start at 1 |
| Store.Database.InsertPerson | app/server.js:89-96 | a person is added under the next sequence value unless the username is taken (unique violation); the sequence advances either way |
| Store.Database.InsertContentItem | app/server.js:103-107 | a content item is added under the next sequence value; nothing else changes |
| Store.Database.InsertTask | app/server.js:108-118 | a task is added exactly when its content and assignee links resolve, with status `todo` when none is given; a dangling link is a foreign-key violation |
| Store.Database.InsertRef | app/server.js:122-128 | a reference is added exactly when its task exists |
| Store.Database.InsertDep | app/server.js:130-136 | the edge is added exactly when the insert is accepted; the invariant keeps edges free of self-loops and between existing tasks |
| Store.Database.DeleteDep | app/server.js:130-136 | removes one ordered pair and nothing else |
| Store.Database.DeleteRef | app/server.js:122-128 | removes one reference and nothing else |
| Store.Database.DeleteTask | app/server.js:122-136 | removes the task, cascades to its references and to every edge touching it, and leaves people and content items unchanged |
| Store.Database.DeletePerson | app/server.js:112 | removes the person and sets the matching assignee links to NULL |
| Store.Database.DeleteContentItem | app/server.js:111 | removes the item and sets the matching content links to NULL |
| Store.Database.ScanTasks | app/server.js:64-66 | yields every stored task exactly once with its id |
| Store.Database.DailyDigest | app/server.js:62-84 | returns a scan of the stored tasks and the digest of that scan with the stored people; the outcome equals the digest of every possible scan |
| Webhook.ContentTitle | app/server.js:42 | the title is non-empty: the text after `/newcontent`, trimmed, or the default title when that is empty |
| Webhook.Classify | app/server.js:34-52 | no message or no chat: nothing; `/newcontent` prefix: insert and confirm with the title; exactly `/id`: reply with the chat id; otherwise the help reply |
| Webhook.ContentTitleTrimmed | app/server.js:42 | a stored title is never empty and has no white space at either end |
| Webhook.DefaultTitleTrimmed | app/server.js:42 | the default title is its own trim |
| Webhook.IdReplyNamesChat | app/server.js:48-49 | the `/id` reply starts with `Chat ID: ` and the rest reads back as the chat id |
| Webhook.CommandWordTrimmed | app/server.js:38 | trimming a `/newcontent` command framed by white space leaves the command word, any inner white space and the title word |
| Webhook.CommandWordTitle | app/server.js:40-42 | such a command text passes the `/newcontent` prefix test, and its title is the title word, or the default title when there is none |
| Webhook.NewContentCommandTitle | app/server.js:38-47 | any `/newcontent` message, with or without white space around the command word and the title (so `/newcontentfoo` has title `foo`), inserts an item under the title word, or the default title when there is none, and confirms it |
| Webhook.MissingTextGetsHelp | app/server.js:38 | a message without text gets the help reply and inserts nothing |
| Webhook.HandleWebhook | app/server.js:32-59 | status is always 200; only `/newcontent` with storage up adds exactly one content item, and then the confirmation is sent; a storage failure sends nothing and changes nothing |

## Left out

- HTTP routing, body parsing and response framing are not modelled; only the status and JSON payload of each reply are. `GET /api/health`, which always answers `{ok: true}`, is not modelled.
- Telegram delivery is not modelled. A send is the reply handed to the transport: `Dispatch` in the digest, `Reply` in the webhook.
- In the webhook, a failed send lands in the catch block and changes nothing observable, so it has no parameter.
- The Postgres client, SQL text and the idempotence of `CREATE … IF NOT EXISTS` are not modelled. Constraints are enforced as the `Valid` invariant, and each statement runs atomically and alone.
- Connection and storage failures are boolean parameters (`storageUp`, `transportUp`).
- The `console.error` logging in both catch blocks is not modelled; no reply or stored row depends on it.
- The two indexes `idx_tasks_due` and `idx_tasks_status` affect only speed and are not modelled.
- `created_at` timestamps are not modelled, and neither is explicit id insertion that bypasses a `serial` sequence.
- `CURRENT_DATE` is the parameter `today`.
- NOT NULL columns (`title`, `name`, `url`, …) have plain types, so a NOT NULL violation cannot arise and `Store.DbError` has no case for it. The width limits of `serial` (int4) and `bigint` columns are not modelled: ids and chat ids are unbounded integers.
- Schema.Date: a due date is carried as the text the client library renders for it. The client turns a `date` into a JavaScript `Date`, whose `toString` depends on the server's time zone; that rendering is not modelled.
- Digest.LexLe: labels are ordered by plain code-point comparison. The database collation's ordering is not modelled.
- JsText.IntText: JavaScript writes integers of magnitude 10^21 or more in exponent form. Chat ids are far smaller, so that form is not modelled.
- Webhook.Classify: a message whose `chat` has no `id`, or whose `text` is not a string, is not modelled. In both cases the source ends in the catch block with status 200 or sends to an undefined chat.
- The Redis client, `OPENAI_API_KEY`, environment loading and `app.listen` startup order are not modelled; no logic uses them.
- Task create, update, list and get endpoints and handle resolution have no code in `app/server.js`, so they are not modelled. The schema has no UPDATE statement either.
