/** The scheduled `send-daily-reminder` function: for every account with
    an e-mail address, configured tasks and at least one task not
    completed today, it queues a reminder, then sends the queued
    reminders one by one and reports the outcome of each. The account
    directory, the database lookups and the mailer are inputs. */
module DailyReminder {
  import opened Wrappers

  /** The outcome of one database query: the rows, or an error. */
  datatype Fetch<T> = Fetched(rows: T) | Failed

  /** A `daily_records` row as selected: `task_id, completed`. */
  datatype RecordRow = RecordRow(taskId: string, completed: bool)

  /** One account with the answers to its two queries: the `task_id`s of
      its `user_tasks` rows and its `daily_records` rows for today. A
      missing address is the empty string. */
  datatype Account = Account(email: string, taskIds: Fetch<seq<string>>, todayRecords: Fetch<seq<RecordRow>>)

  /** `UserWithIncompleteTasks`. */
  datatype Pending = Pending(email: string, incompleteCount: nat)

  /** One entry of `results`: the address and whether the mailer accepted it. */
  datatype EmailResult = EmailResult(email: string, success: bool)

  datatype RequestMethod = Options | Post

  /** The HTTP answer: the CORS preflight "ok", the 200 report, or the 500
      error when the account directory cannot be listed. */
  datatype Response =
    | Preflight
    | Report(date: string, usersChecked: nat, remindersSent: nat, results: seq<EmailResult>)
    | ServerError

  /** `completedTaskIds`: the ids of today's rows marked completed. */
  function CompletedIds(records: seq<RecordRow>): (ids: set<string>)
    ensures forall r :: r in records && r.completed ==> r.taskId in ids
    ensures forall id :: id in ids ==> exists r :: r in records && r.completed && r.taskId == id
  {
    set r | r in records && r.completed :: r.taskId
  }

  /** `incompleteTasks`: the task ids not in `done`, in order and with
      repetitions. */
  function Incomplete(taskIds: seq<string>, done: set<string>): (r: seq<string>)
    ensures |r| <= |taskIds|
    ensures forall t :: t in r <==> t in taskIds && t !in done
    ensures forall t :: multiset(r)[t] == if t in done then 0 else multiset(taskIds)[t]
  {
    if taskIds == [] then []
    else
      var front := Incomplete(taskIds[..|taskIds| - 1], done);
      var last := taskIds[|taskIds| - 1];
      assert taskIds == taskIds[..|taskIds| - 1] + [last];
      if last !in done then front + [last] else front
  }

  /** What one pass of the loop decides for an account: skipped (no
      address, a failed query, no tasks) or a reminder with the number of
      incomplete tasks when there is at least one. */
  function Decide(a: Account): (p: Option<Pending>)
    ensures p.Some? <==>
              a.email != [] && a.taskIds.Fetched? && a.todayRecords.Fetched? &&
              exists t :: t in a.taskIds.rows && t !in CompletedIds(a.todayRecords.rows)
    ensures p.Some? ==> p.value.email == a.email && 0 < p.value.incompleteCount <= |a.taskIds.rows|
    ensures p.Some? ==> p.value.incompleteCount == |Incomplete(a.taskIds.rows, CompletedIds(a.todayRecords.rows))|
  {
    if a.email == [] || a.taskIds.Failed? || a.taskIds.rows == [] || a.todayRecords.Failed? then None
    else
      var incomplete := Incomplete(a.taskIds.rows, CompletedIds(a.todayRecords.rows));
      if |incomplete| > 0 then
        assert incomplete[0] in incomplete;
        Some(Pending(a.email, |incomplete|))
      else None
  }

  /** `usersToNotify` after the loop: the reminders in account order. */
  function Queue(accounts: seq<Account>): (q: seq<Pending>)
    ensures |q| <= |accounts|
  {
    if accounts == [] then []
    else
      var front := Queue(accounts[..|accounts| - 1]);
      match Decide(accounts[|accounts| - 1])
      case Some(p) => front + [p]
      case None => front
  }

  /** Every queued reminder goes to the address of an account that has an
      incomplete task today, and counts exactly that account's incomplete
      tasks, at least one. */
  lemma {:induction false} QueueSound(accounts: seq<Account>)
    ensures forall p :: p in Queue(accounts) ==>
              p.incompleteCount > 0 &&
              exists a :: a in accounts && Decide(a) == Some(p) &&
                p.incompleteCount == |Incomplete(a.taskIds.rows, CompletedIds(a.todayRecords.rows))|
  {
    if accounts != [] {
      var front := accounts[..|accounts| - 1];
      QueueSound(front);
      assert forall a :: a in front ==> a in accounts;
    }
  }

  /** Every account with an incomplete task today gets its reminder. */
  lemma {:induction false} QueueComplete(accounts: seq<Account>, i: nat)
    requires i < |accounts| && Decide(accounts[i]).Some?
    ensures Decide(accounts[i]).value in Queue(accounts)
  {
    var front := accounts[..|accounts| - 1];
    if i < |front| {
      assert front[i] == accounts[i];
      QueueComplete(front, i);
      QueueKeepsFront(accounts);
    } else {
      QueueTakesLast(accounts);
    }
  }

  /** Adding an account keeps every reminder already queued. */
  lemma QueueKeepsFront(accounts: seq<Account>)
    requires accounts != []
    ensures forall p :: p in Queue(accounts[..|accounts| - 1]) ==> p in Queue(accounts)
  {
  }

  /** An account the loop accepts is queued when it is the last one. */
  lemma QueueTakesLast(accounts: seq<Account>)
    requires accounts != [] && Decide(accounts[|accounts| - 1]).Some?
    ensures Decide(accounts[|accounts| - 1]).value in Queue(accounts)
  {
  }

  /** The first loop (`for (const user of users.users)`), with its
      `continue`s. */
  method QueueReminders(accounts: seq<Account>) returns (queue: seq<Pending>)
    ensures queue == Queue(accounts)
  {
    queue := [];
    for i := 0 to |accounts|
      invariant queue == Queue(accounts[..i])
    {
      assert accounts[..i + 1][..i] == accounts[..i];
      var a := accounts[i];
      if a.email == [] { continue; }
      if a.taskIds.Failed? { continue; }
      if a.taskIds.rows == [] { continue; }
      if a.todayRecords.Failed? { continue; }
      var done := CompletedIds(a.todayRecords.rows);
      var incomplete := Incomplete(a.taskIds.rows, done);
      if |incomplete| > 0 {
        queue := queue + [Pending(a.email, |incomplete|)];
      }
    }
    assert accounts[..|accounts|] == accounts;
  }

  /** The second loop: one send per queued reminder, in order; a failed
      send is recorded and the loop goes on. `delivered(i)` is whether the
      mailer accepted the i-th message. */
  method SendReminders(queue: seq<Pending>, delivered: nat -> bool) returns (results: seq<EmailResult>)
    ensures |results| == |queue|
    ensures forall i :: 0 <= i < |queue| ==> results[i] == EmailResult(queue[i].email, delivered(i))
  {
    results := [];
    for i := 0 to |queue|
      invariant |results| == i
      invariant forall k :: 0 <= k < i ==> results[k] == EmailResult(queue[k].email, delivered(k))
    {
      if delivered(i) {
        results := results + [EmailResult(queue[i].email, true)];
      } else {
        results := results + [EmailResult(queue[i].email, false)];
      }
    }
  }

  /** The handler. `accounts` is `None` when listing the accounts fails. */
  method Handle(request: RequestMethod, today: string, accounts: Option<seq<Account>>, delivered: nat -> bool)
    returns (response: Response)
    ensures request == Options ==> response == Preflight
    ensures request != Options && accounts.None? ==> response == ServerError
    ensures request != Options && accounts.Some? ==>
              response.Report? && response.date == today &&
              response.usersChecked == |accounts.value| &&
              response.remindersSent == |Queue(accounts.value)| == |response.results| &&
              forall i :: 0 <= i < |response.results| ==>
                response.results[i] == EmailResult(Queue(accounts.value)[i].email, delivered(i))
  {
    if request == Options {
      return Preflight;
    }
    if accounts.None? {
      return ServerError;
    }
    var queue := QueueReminders(accounts.value);
    var results := SendReminders(queue, delivered);
    response := Report(today, |accounts.value|, |queue|, results);
  }

  /** The number of successful sends among `results`. */
  function Delivered(results: seq<EmailResult>): (n: nat)
    ensures n <= |results|
  {
    if results == [] then 0
    else Delivered(results[..|results| - 1]) + (if results[|results| - 1].success then 1 else 0)
  }

  /** `remindersSent` counts the queued reminders, not the delivered ones:
      the two agree exactly when every send succeeded. */
  lemma {:induction false} DeliveredAll(results: seq<EmailResult>)
    ensures Delivered(results) == |results| <==> forall i :: 0 <= i < |results| ==> results[i].success
  {
    if results != [] {
      var front := results[..|results| - 1];
      DeliveredAll(front);
      assert forall i :: 0 <= i < |front| ==> front[i] == results[i];
    }
  }

  /** The message's agreement: "1 task that hasn't", "n tasks that haven't". */
  function Wording(count: nat): (w: (string, string))
    ensures count == 1 ==> w == ("task", "hasn't")
    ensures count > 1 ==> w == ("tasks", "haven't")
  {
    if count > 1 then ("tasks", "haven't") else ("task", "hasn't")
  }
}
