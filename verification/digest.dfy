/**
 * The daily digest (`GET /api/digest`): select the open tasks due today,
 * label each with its assignee's name, order them by label and id, render
 * one line per task, and report `{sent, count}`.
 */
module Digest {
  import opened Wrappers
  import opened Schema

  const UnassignedLabel: string := "Unassigned"
  /** The body used when nothing is due today. */
  const NoTasksLine: string := "امروز تسکی ثبت نشده."
  /** The first line of every digest message. */
  const HeaderLine: string := "🗓 گزارش امروز:"
  const DigestFailed: string := "digest_failed"

  /** One row of the digest query: `t.id, t.title, t.due` and the `assignee` label. */
  datatype DigestRow = DigestRow(id: int, title: string, due: Date, assignee: string)

  /** The query's WHERE clause: an open status and a due date equal to today. */
  predicate Qualifies(t: Task, today: Date) {
    (t.status == Some(Todo) || t.status == Some(InProgress)) && t.due == Some(today)
  }

  /** `COALESCE(p.name, 'Unassigned')` over the left join of the assignee. */
  function Label(t: Task, people: map<int, Person>): (l: string)
    ensures t.assigneeId.Some? && t.assigneeId.value in people ==> l == people[t.assigneeId.value].name
    ensures (t.assigneeId.None? || t.assigneeId.value !in people) ==> l == UnassignedLabel
  {
    if t.assigneeId.Some? && t.assigneeId.value in people then people[t.assigneeId.value].name
    else UnassignedLabel
  }

  /** The selected columns of one task row. */
  function Project(row: TableRow, people: map<int, Person>): DigestRow
    requires row.task.due.Some?
  {
    DigestRow(row.id, row.task.title, row.task.due.value, Label(row.task, people))
  }

  /** The rows the WHERE clause keeps, in scan order. */
  function Select(rows: seq<TableRow>, people: map<int, Person>, today: Date): (r: seq<DigestRow>)
    ensures |r| <= |rows|
    ensures forall i :: 0 <= i < |rows| && Qualifies(rows[i].task, today) ==> Project(rows[i], people) in r
    ensures forall x :: x in r ==>
      exists i :: 0 <= i < |rows| && Qualifies(rows[i].task, today) && x == Project(rows[i], people)
  {
    if rows == [] then []
    else
      var rest := Select(rows[1..], people, today);
      assert forall x :: x in rest ==>
        exists i :: 1 <= i < |rows| && Qualifies(rows[i].task, today) && x == Project(rows[i], people) by {
        forall x | x in rest
          ensures exists i :: 1 <= i < |rows| && Qualifies(rows[i].task, today) && x == Project(rows[i], people)
        {
          var j :| 0 <= j < |rows[1..]| && Qualifies(rows[1..][j].task, today) && x == Project(rows[1..][j], people);
          assert rows[j + 1] == rows[1..][j];
        }
      }
      assert forall i :: 1 <= i < |rows| ==> rows[i] == rows[1..][i - 1];
      (if Qualifies(rows[0].task, today) then [Project(rows[0], people)] else []) + rest
  }

  /** Code-point lexicographic order on strings (the ordering used for `ORDER BY assignee`). */
  predicate LexLe(a: string, b: string) {
    if a == [] then true
    else if b == [] then false
    else if a[0] != b[0] then a[0] < b[0]
    else LexLe(a[1..], b[1..])
  }

  lemma {:induction false} LexLeTotal(a: string, b: string)
    ensures LexLe(a, b) || LexLe(b, a)
  {
    if a != [] && b != [] && a[0] == b[0] {
      LexLeTotal(a[1..], b[1..]);
    }
  }

  lemma {:induction false} LexLeAntisymmetric(a: string, b: string)
    requires LexLe(a, b) && LexLe(b, a)
    ensures a == b
  {
    if a != [] && b != [] {
      LexLeAntisymmetric(a[1..], b[1..]);
      assert a == [a[0]] + a[1..] && b == [b[0]] + b[1..];
    }
  }

  lemma {:induction false} LexLeTransitive(a: string, b: string, c: string)
    requires LexLe(a, b) && LexLe(b, c)
    ensures LexLe(a, c)
  {
    if a != [] && b != [] && c != [] && a[0] == b[0] && b[0] == c[0] {
      LexLeTransitive(a[1..], b[1..], c[1..]);
    }
  }

  /** `ORDER BY assignee, t.id`: by label, then by id. */
  predicate RowLe(x: DigestRow, y: DigestRow) {
    if x.assignee == y.assignee then x.id <= y.id else LexLe(x.assignee, y.assignee)
  }

  lemma RowLeTotal(x: DigestRow, y: DigestRow)
    ensures RowLe(x, y) || RowLe(y, x)
  {
    LexLeTotal(x.assignee, y.assignee);
  }

  lemma RowLeAntisymmetric(x: DigestRow, y: DigestRow)
    requires RowLe(x, y) && RowLe(y, x)
    ensures x.assignee == y.assignee && x.id == y.id
  {
    if x.assignee != y.assignee {
      LexLeAntisymmetric(x.assignee, y.assignee);
    }
  }

  lemma RowLeTransitive(x: DigestRow, y: DigestRow, z: DigestRow)
    requires RowLe(x, y) && RowLe(y, z)
    ensures RowLe(x, z)
  {
    if x.assignee != y.assignee && y.assignee != z.assignee {
      LexLeTransitive(x.assignee, y.assignee, z.assignee);
      if x.assignee == z.assignee {
        LexLeAntisymmetric(x.assignee, y.assignee);
      }
    }
  }

  predicate Sorted(s: seq<DigestRow>) {
    forall i, j :: 0 <= i < j < |s| ==> RowLe(s[i], s[j])
  }

  lemma SortedCons(h: DigestRow, t: seq<DigestRow>)
    requires Sorted(t)
    requires forall y :: y in t ==> RowLe(h, y)
    ensures Sorted([h] + t)
  {
    var s := [h] + t;
    forall i, j | 0 <= i < j < |s| ensures RowLe(s[i], s[j]) {
      if i == 0 {
        assert s[j] == t[j - 1];
      } else {
        assert s[i] == t[i - 1] && s[j] == t[j - 1];
      }
    }
  }

  /** Inserts `x` into a sorted sequence at its place. */
  function Insert(x: DigestRow, s: seq<DigestRow>): (r: seq<DigestRow>)
    ensures multiset(r) == multiset(s) + multiset{x}
    ensures Sorted(s) ==> Sorted(r)
  {
    if s == [] then [x]
    else if RowLe(x, s[0]) then
      assert Sorted(s) ==> forall y :: y in s ==> RowLe(x, y) by {
        if Sorted(s) {
          forall y | y in s ensures RowLe(x, y) {
            var j :| 0 <= j < |s| && s[j] == y;
            if j > 0 { RowLeTransitive(x, s[0], y); }
          }
        }
      }
      assert Sorted(s) ==> Sorted([x] + s) by {
        if Sorted(s) { SortedCons(x, s); }
      }
      [x] + s
    else
      var rest := Insert(x, s[1..]);
      assert s == [s[0]] + s[1..];
      assert Sorted(s) ==> Sorted([s[0]] + rest) by {
        if Sorted(s) {
          forall y | y in rest ensures RowLe(s[0], y) {
            assert y in multiset(rest);
            if y == x {
              RowLeTotal(x, s[0]);
            } else {
              assert y in multiset(s[1..]);
              var j :| 0 <= j < |s[1..]| && s[1..][j] == y;
              assert s[j + 1] == y;
            }
          }
          SortedCons(s[0], rest);
        }
      }
      [s[0]] + rest
  }

  /** The query's ORDER BY, as an insertion sort: a sorted permutation of its input. */
  function SortRows(s: seq<DigestRow>): (r: seq<DigestRow>)
    ensures multiset(r) == multiset(s)
    ensures Sorted(r)
  {
    if s == [] then []
    else
      assert s == [s[0]] + s[1..];
      Insert(s[0], SortRows(s[1..]))
  }

  /** The rows of the digest query, in the order it returns them. */
  function DigestRows(rows: seq<TableRow>, people: map<int, Person>, today: Date): (r: seq<DigestRow>)
    ensures Sorted(r)
    ensures forall i :: 0 <= i < |rows| && Qualifies(rows[i].task, today) ==> Project(rows[i], people) in r
    ensures forall x :: x in r ==>
      exists i :: 0 <= i < |rows| && Qualifies(rows[i].task, today) && x == Project(rows[i], people)
  {
    var s := Select(rows, people, today);
    var r := SortRows(s);
    assert forall x :: x in r <==> x in s by {
      forall x ensures x in r <==> x in s {
        assert x in r <==> x in multiset(r);
        assert x in s <==> x in multiset(s);
      }
    }
    r
  }

  /**
   * A task that does not qualify (done, blocked, stored with a NULL status,
   * or not due today) never appears in the digest, since rows are keyed by id.
   */
  lemma UnqualifiedNeverListed(rows: seq<TableRow>, people: map<int, Person>, today: Date, i: int)
    requires DistinctIds(rows) && 0 <= i < |rows| && !Qualifies(rows[i].task, today)
    ensures forall x :: x in DigestRows(rows, people, today) ==> x.id != rows[i].id
  {
    forall x | x in DigestRows(rows, people, today) ensures x.id != rows[i].id {
      var j :| 0 <= j < |rows| && Qualifies(rows[j].task, today) && x == Project(rows[j], people);
      assert j != i;
    }
  }

  /** No two rows with the same id differ. */
  predicate IdKeyed(s: seq<DigestRow>) {
    forall x, y :: x in s && y in s && x.id == y.id ==> x == y
  }

  /** A sorted sequence of id-keyed rows is determined by its multiset. */
  lemma {:induction false} SortedUnique(a: seq<DigestRow>, b: seq<DigestRow>)
    requires Sorted(a) && Sorted(b) && multiset(a) == multiset(b) && IdKeyed(a)
    ensures a == b
    decreases |a|
  {
    if a == [] {
      assert |b| == |multiset(b)| == 0;
    } else {
      SortedHeads(a, b);
      SortedTails(a, b);
      SortedUnique(a[1..], b[1..]);
    }
  }

  lemma SortedHeads(a: seq<DigestRow>, b: seq<DigestRow>)
    requires a != [] && Sorted(a) && Sorted(b) && multiset(a) == multiset(b) && IdKeyed(a)
    ensures b != [] && a[0] == b[0]
  {
    assert a[0] in multiset(b);
    assert b[0] in multiset(a);
    var k :| 0 <= k < |a| && a[k] == b[0];
    var m :| 0 <= m < |b| && b[m] == a[0];
    assert RowLe(a[0], b[0]) by {
      if k > 0 { assert RowLe(a[0], a[k]); }
    }
    assert RowLe(b[0], a[0]) by {
      if m > 0 { assert RowLe(b[0], b[m]); }
    }
    RowLeAntisymmetric(a[0], b[0]);
  }

  lemma SortedTails(a: seq<DigestRow>, b: seq<DigestRow>)
    requires a != [] && b != [] && a[0] == b[0]
    requires Sorted(a) && Sorted(b) && multiset(a) == multiset(b) && IdKeyed(a)
    ensures Sorted(a[1..]) && Sorted(b[1..]) && multiset(a[1..]) == multiset(b[1..]) && IdKeyed(a[1..])
  {
    assert a == [a[0]] + a[1..] && b == [b[0]] + b[1..];
    assert multiset(a[1..]) == multiset(a) - multiset{a[0]};
    assert multiset(b[1..]) == multiset(b) - multiset{b[0]};
    forall x | x in a[1..] ensures x in a { }
  }

  lemma {:induction false} SelectAppend(a: seq<TableRow>, b: seq<TableRow>, people: map<int, Person>, today: Date)
    ensures Select(a + b, people, today) == Select(a, people, today) + Select(b, people, today)
    decreases |a|
  {
    if a == [] {
      assert a + b == b;
    } else {
      assert (a + b)[1..] == a[1..] + b;
      SelectAppend(a[1..], b, people, today);
    }
  }

  /** The rows kept from two scans of the same table form the same multiset. */
  lemma {:induction false} SelectPermutation(a: seq<TableRow>, b: seq<TableRow>, people: map<int, Person>, today: Date)
    requires multiset(a) == multiset(b)
    ensures multiset(Select(a, people, today)) == multiset(Select(b, people, today))
    decreases |a|
  {
    if a == [] {
      assert |b| == |multiset(b)| == 0;
    } else {
      assert a[0] in multiset(b);
      var k :| 0 <= k < |b| && b[k] == a[0];
      var b' := b[..k] + b[k + 1..];
      assert b == b[..k] + [b[k]] + b[k + 1..];
      assert a == [a[0]] + a[1..];
      assert multiset(a) == multiset{a[0]} + multiset(a[1..]);
      assert multiset(b) == multiset(b[..k]) + multiset{b[k]} + multiset(b[k + 1..]);
      assert multiset(b') == multiset(b[..k]) + multiset(b[k + 1..]);
      assert multiset(a[1..]) == multiset(a) - multiset{a[0]};
      assert multiset(b') == multiset(b) - multiset{b[k]};
      SelectPermutation(a[1..], b', people, today);
      SelectAppend(b[..k] + [b[k]], b[k + 1..], people, today);
      SelectAppend(b[..k], [b[k]], people, today);
      SelectAppend(b[..k], b[k + 1..], people, today);
      SelectAppend([a[0]], a[1..], people, today);
    }
  }

  /** Distinct primary keys make the selected rows id-keyed. */
  lemma SelectIdKeyed(rows: seq<TableRow>, people: map<int, Person>, today: Date)
    requires DistinctIds(rows)
    ensures IdKeyed(Select(rows, people, today))
  {
    var s := Select(rows, people, today);
    forall x, y | x in s && y in s && x.id == y.id ensures x == y {
      var i :| 0 <= i < |rows| && Qualifies(rows[i].task, today) && x == Project(rows[i], people);
      var j :| 0 <= j < |rows| && Qualifies(rows[j].task, today) && y == Project(rows[j], people);
    }
  }

  /**
   * The digest does not depend on the order in which the table is scanned:
   * with distinct task ids, the ORDER BY fixes the result completely.
   */
  lemma DigestRowsScanOrder(a: seq<TableRow>, b: seq<TableRow>, people: map<int, Person>, today: Date)
    requires multiset(a) == multiset(b) && DistinctIds(a)
    ensures DigestRows(a, people, today) == DigestRows(b, people, today)
  {
    var sa, sb := Select(a, people, today), Select(b, people, today);
    SelectPermutation(a, b, people, today);
    SelectIdKeyed(a, people, today);
    var ra, rb := SortRows(sa), SortRows(sb);
    assert IdKeyed(ra) by {
      forall x | x in ra ensures x in sa {
        assert x in multiset(ra);
      }
    }
    SortedUnique(ra, rb);
  }

  /** The ids of the task rows the WHERE clause keeps. */
  ghost function QualifyingIds(rows: seq<TableRow>, today: Date): set<int> {
    set i | 0 <= i < |rows| && Qualifies(rows[i].task, today) :: rows[i].id
  }

  /** `count` is the number of tasks that qualify. */
  lemma {:induction false} DigestCount(rows: seq<TableRow>, people: map<int, Person>, today: Date)
    requires DistinctIds(rows)
    ensures |DigestRows(rows, people, today)| == |QualifyingIds(rows, today)|
  {
    SelectCount(rows, people, today);
    assert |multiset(DigestRows(rows, people, today))| == |multiset(Select(rows, people, today))|;
  }

  lemma {:induction false} SelectCount(rows: seq<TableRow>, people: map<int, Person>, today: Date)
    requires DistinctIds(rows)
    ensures |Select(rows, people, today)| == |QualifyingIds(rows, today)|
    decreases |rows|
  {
    if rows == [] {
      assert QualifyingIds(rows, today) == {};
    } else {
      var tail := rows[1..];
      QualifyingIdsCons(rows, today);
      SelectCount(tail, people, today);
    }
  }

  /** Splits the first row off: its id, if it qualifies, is new to the rest. */
  lemma QualifyingIdsCons(rows: seq<TableRow>, today: Date)
    requires rows != [] && DistinctIds(rows)
    ensures DistinctIds(rows[1..])
    ensures rows[0].id !in QualifyingIds(rows[1..], today)
    ensures QualifyingIds(rows, today) ==
      (if Qualifies(rows[0].task, today) then {rows[0].id} else {}) + QualifyingIds(rows[1..], today)
  {
    var tail := rows[1..];
    forall i, j | 0 <= i < |tail| && 0 <= j < |tail| && tail[i].id == tail[j].id ensures i == j {
      assert rows[i + 1] == tail[i] && rows[j + 1] == tail[j];
    }
    var head: set<int> := if Qualifies(rows[0].task, today) then {rows[0].id} else {};
    forall id | id in QualifyingIds(tail, today) ensures id in QualifyingIds(rows, today) && id != rows[0].id {
      var i :| 0 <= i < |tail| && Qualifies(tail[i].task, today) && tail[i].id == id;
      assert rows[i + 1] == tail[i];
    }
    forall id | id in QualifyingIds(rows, today) ensures id in head + QualifyingIds(tail, today) {
      var i :| 0 <= i < |rows| && Qualifies(rows[i].task, today) && rows[i].id == id;
      if i > 0 { assert tail[i - 1] == rows[i]; }
    }
  }

  /** One rendered line: `• [assignee] title — due`. */
  function Line(r: DigestRow): string {
    "• [" + r.assignee + "] " + r.title + " — " + r.due
  }

  function Lines(rows: seq<DigestRow>): (ls: seq<string>)
    ensures |ls| == |rows| && forall i :: 0 <= i < |rows| ==> ls[i] == Line(rows[i])
  {
    seq(|rows|, i requires 0 <= i < |rows| => Line(rows[i]))
  }

  /** `ls.join("\n")`. */
  function JoinLines(ls: seq<string>): string {
    if |ls| == 0 then ""
    else if |ls| == 1 then ls[0]
    else ls[0] + "\n" + JoinLines(ls[1..])
  }

  /** `s.split("\n")`: the pieces between newlines, always at least one. */
  function SplitLines(s: string): (ls: seq<string>)
    ensures |ls| >= 1
  {
    if s == [] then [""]
    else if s[0] == '\n' then [""] + SplitLines(s[1..])
    else
      var t := SplitLines(s[1..]);
      [[s[0]] + t[0]] + t[1..]
  }

  lemma {:induction false} SplitNoNewline(s: string)
    requires '\n' !in s
    ensures SplitLines(s) == [s]
  {
    if s != [] {
      assert '\n' !in s[1..];
      SplitNoNewline(s[1..]);
      assert [s[0]] + s[1..] == s;
    }
  }

  lemma {:induction false} SplitAfterLine(a: string, rest: string)
    requires '\n' !in a
    ensures SplitLines(a + "\n" + rest) == [a] + SplitLines(rest)
  {
    if a == [] {
      assert a + "\n" + rest == "\n" + rest;
      assert ("\n" + rest)[1..] == rest;
    } else {
      assert (a + "\n" + rest)[1..] == a[1..] + "\n" + rest;
      assert '\n' !in a[1..];
      SplitAfterLine(a[1..], rest);
      assert [a[0]] + a[1..] == a;
    }
  }

  /** Joining lines that hold no newline and splitting again gives the lines back. */
  lemma {:induction false} SplitJoin(ls: seq<string>)
    requires |ls| >= 1
    requires forall i :: 0 <= i < |ls| ==> '\n' !in ls[i]
    ensures SplitLines(JoinLines(ls)) == ls
  {
    if |ls| == 1 {
      SplitNoNewline(ls[0]);
    } else {
      SplitJoin(ls[1..]);
      SplitAfterLine(ls[0], JoinLines(ls[1..]));
    }
  }

  /** `lines` in the handler: the rendered rows, or the fixed line when there are none. */
  function Body(rows: seq<DigestRow>): string {
    if |rows| == 0 then NoTasksLine else JoinLines(Lines(rows))
  }

  /** The text sent to the digest chat. */
  function Message(rows: seq<DigestRow>): string {
    HeaderLine + "\n" + Body(rows)
  }

  /**
   * When no label, title or date holds a newline, the message reads as the
   * header line followed by one line per row in row order, or by the fixed
   * line when no row qualifies.
   */
  lemma MessageLines(rows: seq<DigestRow>)
    requires forall i :: 0 <= i < |rows| ==> '\n' !in Line(rows[i])
    ensures SplitLines(Message(rows)) == [HeaderLine] + (if |rows| == 0 then [NoTasksLine] else Lines(rows))
  {
    HeaderSplits(Body(rows));
    if |rows| == 0 {
      NoTasksLineSplits();
    } else {
      SplitJoin(Lines(rows));
    }
  }

  lemma HeaderSplits(body: string)
    ensures SplitLines(HeaderLine + "\n" + body) == [HeaderLine] + SplitLines(body)
  {
    assert '\n' !in HeaderLine;
    SplitAfterLine(HeaderLine, body);
  }

  lemma NoTasksLineSplits()
    ensures SplitLines(NoTasksLine) == [NoTasksLine]
  {
    assert '\n' !in NoTasksLine;
    SplitNoNewline(NoTasksLine);
  }

  /** A destination is configured when the variable is set to a non-empty string (its truthiness). */
  predicate Configured(to: Option<string>) {
    to.Some? && to.value != ""
  }

  /** The handler's reply: `{sent, count}`, or status 500 with `{error: "digest_failed"}`. */
  datatype Response = DigestJson(sent: bool, count: nat) | ErrorJson(status: int, error: string)

  /** A message handed to the chat transport. */
  datatype Dispatch = Dispatch(to: string, text: string)

  datatype DigestOutcome = DigestOutcome(response: Response, dispatched: Option<Dispatch>)

  /**
   * The whole handler. `storageUp` says whether the query succeeds and
   * `transportUp` whether sending succeeds; either failure lands in the
   * catch block and yields status 500.
   */
  function RunDigest(rows: seq<TableRow>, people: map<int, Person>, today: Date, to: Option<string>,
                     storageUp: bool, transportUp: bool): (o: DigestOutcome)
    ensures o.dispatched.Some? <==> storageUp && Configured(to)
    ensures o.dispatched.Some? ==>
      o.dispatched.value == Dispatch(to.value, Message(DigestRows(rows, people, today)))
    ensures o.response.DigestJson? <==> storageUp && (transportUp || !Configured(to))
    ensures o.response.DigestJson? ==>
      o.response.sent == Configured(to) && o.response.count == |DigestRows(rows, people, today)|
    ensures o.response.ErrorJson? ==> o.response == ErrorJson(500, DigestFailed)
  {
    if !storageUp then DigestOutcome(ErrorJson(500, DigestFailed), None)
    else
      var selected := DigestRows(rows, people, today);
      var dispatched := if Configured(to) then Some(Dispatch(to.value, Message(selected))) else None;
      if Configured(to) && !transportUp then DigestOutcome(ErrorJson(500, DigestFailed), dispatched)
      else DigestOutcome(DigestJson(Configured(to), |selected|), dispatched)
  }

  /** The people of the scenario below. */
  function ScenarioPeople(): map<int, Person> {
    map[1 := Person("alice", None, None, Some("alice")), 2 := Person("bob", None, None, Some("bob"))]
  }

  /** alice's open task, bob's finished one and an unassigned one in progress, all due `today`. */
  function ScenarioRows(today: Date): seq<TableRow> {
    [ TableRow(1, Task("script", None, Some(1), Some(today), Some(Todo), None, None)),
      TableRow(2, Task("edit", None, Some(2), Some(today), Some(Done), None, None)),
      TableRow(3, Task("shoot", None, None, Some(today), Some(InProgress), None, None)) ]
  }

  lemma ScenarioSelect(today: Date)
    ensures Select(ScenarioRows(today), ScenarioPeople(), today) ==
      [DigestRow(1, "script", today, "alice"), DigestRow(3, "shoot", today, UnassignedLabel)]
  {
    var rows := ScenarioRows(today);
    var people := ScenarioPeople();
    assert Label(rows[0].task, people) == "alice";
    assert Label(rows[2].task, people) == UnassignedLabel;
    assert Select(rows[3..], people, today) == [];
    assert Select(rows[2..], people, today) == [DigestRow(3, "shoot", today, UnassignedLabel)];
    assert Select(rows[1..], people, today) == [DigestRow(3, "shoot", today, UnassignedLabel)];
  }

  lemma ScenarioSort(today: Date)
    ensures SortRows([DigestRow(1, "script", today, "alice"), DigestRow(3, "shoot", today, UnassignedLabel)]) ==
      [DigestRow(3, "shoot", today, UnassignedLabel), DigestRow(1, "script", today, "alice")]
  {
    var alice := DigestRow(1, "script", today, "alice");
    var unassigned := DigestRow(3, "shoot", today, UnassignedLabel);
    assert !LexLe(alice.assignee, unassigned.assignee);
    assert !RowLe(alice, unassigned);
    assert Insert(alice, [unassigned]) == [unassigned, alice];
    assert [alice, unassigned][1..] == [unassigned];
  }

  /**
   * Bob's finished task is left out, and "Unassigned" sorts before "alice"
   * because 'U' precedes 'a'; the count is 2.
   */
  lemma ThreeTasksDueToday(today: Date)
    ensures DigestRows(ScenarioRows(today), ScenarioPeople(), today) ==
      [DigestRow(3, "shoot", today, UnassignedLabel), DigestRow(1, "script", today, "alice")]
    ensures RunDigest(ScenarioRows(today), ScenarioPeople(), today, Some("42"), true, true).response == DigestJson(true, 2)
  {
    ScenarioSelect(today);
    ScenarioSort(today);
  }

  lemma {:induction false} SelectNone(rows: seq<TableRow>, people: map<int, Person>, today: Date)
    requires forall i :: 0 <= i < |rows| ==> !Qualifies(rows[i].task, today)
    ensures Select(rows, people, today) == []
    decreases |rows|
  {
    if rows != [] {
      assert forall i :: 0 <= i < |rows[1..]| ==> rows[1..][i] == rows[i + 1];
      SelectNone(rows[1..], people, today);
    }
  }

  /** Nothing qualifies: the body is the fixed line and the count is zero. */
  lemma NothingDueToday(rows: seq<TableRow>, people: map<int, Person>, today: Date)
    requires forall i :: 0 <= i < |rows| ==> !Qualifies(rows[i].task, today)
    ensures DigestRows(rows, people, today) == []
    ensures Body(DigestRows(rows, people, today)) == NoTasksLine
    ensures RunDigest(rows, people, today, None, true, true).response == DigestJson(false, 0)
  {
    SelectNone(rows, people, today);
  }
}
