/**
 * One tick of the reminder scheduler: the notifications due at the current
 * (weekday, hour, minute) are taken in query order; each is skipped when its
 * subject, its user or the user's email is missing, and otherwise produces one
 * send attempt, whose failure is caught so that later notifications still run.
 */
module Scheduler {
  import opened Wrappers
  import opened Text
  import opened Store
  import opened NotificationModel
  import UsersModel

  /** The name used when a user has neither a full name nor a username ("student"). */
  const DefaultName: string := "\U{05EA}\U{05DC}\U{05DE}\U{05D9}\U{05D3}"

  /** `user.fullName || user.username || "תלמיד"`. */
  function RecipientName(p: UsersModel.User): (name: string)
    ensures Truthy(p.fullName) ==> name == p.fullName.value
    ensures !Truthy(p.fullName) && Truthy(p.username) ==> name == p.username.value
    ensures !Truthy(p.fullName) && !Truthy(p.username) ==> name == DefaultName
    ensures name != ""
  {
    if Truthy(p.fullName) then p.fullName.value
    else if Truthy(p.username) then p.username.value
    else DefaultName
  }

  /** One call of `sendReminderEmail(to, name, subjectTitle)` and whether it resolved. */
  datatype Attempt = Attempt(notificationId: string, to: string, name: string, subjectTitle: string, delivered: bool)

  /** The reminder a notification asks for, if its subject and an emailed user exist. */
  function Reminder(n: Notification, subjects: map<string, string>, people: map<string, UsersModel.User>)
    : (r: Option<(string, string, string)>)
    ensures r.Some? <==> n.subjectId in subjects && n.userId in people && Truthy(people[n.userId].email)
    ensures r.Some? ==> r.value == (people[n.userId].email.value, RecipientName(people[n.userId]), subjects[n.subjectId])
  {
    if n.subjectId !in subjects then None
    else if n.userId !in people || !Truthy(people[n.userId].email) then None
    else Some((people[n.userId].email.value, RecipientName(people[n.userId]), subjects[n.subjectId]))
  }

  /**
   * The attempts of a tick over the due notifications `ids`, in order. A lookup
   * by an id the driver cannot cast finds nothing, like a missing document.
   */
  function Attempts(ids: seq<string>, docs: map<string, Notification>, subjects: map<string, string>,
                    people: map<string, UsersModel.User>, delivered: string -> bool): (r: seq<Attempt>)
    requires forall k :: 0 <= k < |ids| ==> ids[k] in docs
    ensures |r| <= |ids|
    decreases |ids|
  {
    if |ids| == 0 then []
    else
      var last := ids[|ids| - 1];
      var before := Attempts(ids[..|ids| - 1], docs, subjects, people, delivered);
      match Reminder(docs[last], subjects, people)
      case None => before
      case Some((to, name, title)) => before + [Attempt(last, to, name, title, delivered(last))]
  }

  /** Who is written to, whatever the outcome of each send. */
  function Recipients(attempts: seq<Attempt>): seq<(string, string, string, string)> {
    seq(|attempts|, k requires 0 <= k < |attempts| =>
      (attempts[k].notificationId, attempts[k].to, attempts[k].name, attempts[k].subjectTitle))
  }

  /** One more due notification adds its reminder, if it has one. */
  lemma AttemptsSnoc(pre: seq<string>, id: string, docs: map<string, Notification>, subjects: map<string, string>,
                     people: map<string, UsersModel.User>, delivered: string -> bool)
    requires id in docs && forall k :: 0 <= k < |pre| ==> pre[k] in docs
    ensures Attempts(pre + [id], docs, subjects, people, delivered)
         == match Reminder(docs[id], subjects, people)
            case None => Attempts(pre, docs, subjects, people, delivered)
            case Some((to, name, title)) => Attempts(pre, docs, subjects, people, delivered) + [Attempt(id, to, name, title, delivered(id))]
  {
    assert (pre + [id])[..|pre|] == pre;
  }

  /** A failed send changes nothing for the notifications after it: recipients do not depend on delivery. */
  lemma {:induction false} FailuresIsolated(ids: seq<string>, docs: map<string, Notification>, subjects: map<string, string>,
                                            people: map<string, UsersModel.User>, d1: string -> bool, d2: string -> bool)
    requires forall k :: 0 <= k < |ids| ==> ids[k] in docs
    ensures Recipients(Attempts(ids, docs, subjects, people, d1)) == Recipients(Attempts(ids, docs, subjects, people, d2))
    decreases |ids|
  {
    if |ids| > 0 {
      var init := ids[..|ids| - 1];
      FailuresIsolated(init, docs, subjects, people, d1, d2);
      var b1, b2 := Attempts(init, docs, subjects, people, d1), Attempts(init, docs, subjects, people, d2);
      var r1, r2 := Attempts(ids, docs, subjects, people, d1), Attempts(ids, docs, subjects, people, d2);
      assert |b1| == |Recipients(b1)| == |Recipients(b2)| == |b2|;
      forall k | 0 <= k < |r1| ensures Recipients(r1)[k] == Recipients(r2)[k] {
        if k < |b1| {
          assert Recipients(b1)[k] == Recipients(b2)[k];
        }
      }
    }
  }

  /** `a` is the attempt the reminder of one of `ids` asks for. */
  predicate Explained(a: Attempt, ids: seq<string>, docs: map<string, Notification>, subjects: map<string, string>,
                      people: map<string, UsersModel.User>, delivered: string -> bool) {
    a.notificationId in ids && a.notificationId in docs
    && Reminder(docs[a.notificationId], subjects, people) == Some((a.to, a.name, a.subjectTitle))
    && a.delivered == delivered(a.notificationId)
  }

  /** Every attempt is the reminder of a due notification, with that notification's delivery outcome. */
  lemma {:induction false} AttemptsAreReminders(ids: seq<string>, docs: map<string, Notification>, subjects: map<string, string>,
                                                people: map<string, UsersModel.User>, delivered: string -> bool)
    requires forall k :: 0 <= k < |ids| ==> ids[k] in docs
    ensures forall k :: 0 <= k < |Attempts(ids, docs, subjects, people, delivered)| ==>
      Explained(Attempts(ids, docs, subjects, people, delivered)[k], ids, docs, subjects, people, delivered)
    decreases |ids|
  {
    if |ids| > 0 {
      var init := ids[..|ids| - 1];
      AttemptsAreReminders(init, docs, subjects, people, delivered);
      var before := Attempts(init, docs, subjects, people, delivered);
      var r := Attempts(ids, docs, subjects, people, delivered);
      forall k | 0 <= k < |r| ensures Explained(r[k], ids, docs, subjects, people, delivered) {
        if k < |before| {
          assert r[k] == before[k];
          assert Explained(before[k], init, docs, subjects, people, delivered);
          var j :| 0 <= j < |init| && init[j] == before[k].notificationId;
          assert ids[j] == init[j];
        }
      }
    }
  }

  /** No notification is attempted twice. */
  predicate OncePerNotification(attempts: seq<Attempt>) {
    forall i, j :: 0 <= i < j < |attempts| ==> attempts[i].notificationId != attempts[j].notificationId
  }

  /** Each notification yields at most one attempt: distinct due ids give distinct attempts. */
  lemma {:induction false} OneAttemptPerNotification(ids: seq<string>, docs: map<string, Notification>, subjects: map<string, string>,
                                                     people: map<string, UsersModel.User>, delivered: string -> bool)
    requires forall k :: 0 <= k < |ids| ==> ids[k] in docs
    requires Distinct(ids)
    ensures OncePerNotification(Attempts(ids, docs, subjects, people, delivered))
    decreases |ids|
  {
    if |ids| > 0 {
      var init := ids[..|ids| - 1];
      var last := ids[|ids| - 1];
      assert Distinct(init);
      OneAttemptPerNotification(init, docs, subjects, people, delivered);
      AttemptsAreReminders(init, docs, subjects, people, delivered);
      var before := Attempts(init, docs, subjects, people, delivered);
      var r := Attempts(ids, docs, subjects, people, delivered);
      forall k | 0 <= k < |before| ensures before[k].notificationId != last {
        assert Explained(before[k], init, docs, subjects, people, delivered);
        var j :| 0 <= j < |init| && init[j] == before[k].notificationId;
        assert ids[j] == init[j];
      }
      match Reminder(docs[last], subjects, people)
      case None =>
        assert r == before;
      case Some((to, name, title)) =>
        assert r == before + [Attempt(last, to, name, title, delivered(last))];
        forall i, j | 0 <= i < j < |r| ensures r[i].notificationId != r[j].notificationId {
          if j < |before| {
            assert r[i] == before[i] && r[j] == before[j];
          }
        }
    }
  }

  /**
   * A tick at (`day`, `hour`, `minute`). `castable` tells which id strings the
   * driver can cast to an ObjectId; `delivered` is the outcome of each send.
   * An uncastable id is treated like a missing document.
   */
  method Tick(notifications: Collection<Notification>, subjects: map<string, string>,
              people: map<string, UsersModel.User>, castable: string -> bool, delivered: string -> bool,
              day: string, hour: int, minute: int) returns (attempts: seq<Attempt>)
    requires notifications.Valid()
    requires forall id :: id in subjects ==> castable(id)
    requires forall id :: id in people ==> castable(id)
    ensures var due := Matching(notifications.order, notifications.docs, DueAt(day, hour, minute));
      (forall k :: 0 <= k < |due| ==> due[k] in notifications.docs)
      && attempts == Attempts(due, notifications.docs, subjects, people, delivered)
    ensures forall k :: 0 <= k < |attempts| ==>
      attempts[k].notificationId in notifications.docs
      && DueAt(day, hour, minute)(notifications.docs[attempts[k].notificationId])
      && Reminder(notifications.docs[attempts[k].notificationId], subjects, people)
         == Some((attempts[k].to, attempts[k].name, attempts[k].subjectTitle))
    ensures OncePerNotification(attempts)
  {
    var due := notifications.FindAll(DueAt(day, hour, minute));
    attempts := SendReminders(due, notifications.docs, subjects, people, castable, delivered);
    AttemptsAreReminders(due, notifications.docs, subjects, people, delivered);
    OneAttemptPerNotification(due, notifications.docs, subjects, people, delivered);
  }

  /** The loop of one tick over the due notifications `due`, in order. */
  method SendReminders(due: seq<string>, docs: map<string, Notification>, subjects: map<string, string>,
                       people: map<string, UsersModel.User>, castable: string -> bool, delivered: string -> bool)
    returns (attempts: seq<Attempt>)
    requires forall k :: 0 <= k < |due| ==> due[k] in docs
    requires forall id :: id in subjects ==> castable(id)
    requires forall id :: id in people ==> castable(id)
    ensures attempts == Attempts(due, docs, subjects, people, delivered)
  {
    attempts := [];
    var i := 0;
    while i < |due|
      invariant 0 <= i <= |due|
      invariant attempts == Attempts(due[..i], docs, subjects, people, delivered)
    {
      assert due[..i + 1] == due[..i] + [due[i]];
      AttemptsSnoc(due[..i], due[i], docs, subjects, people, delivered);
      var n := docs[due[i]];
      var subject := if castable(n.subjectId) && n.subjectId in subjects then Some(subjects[n.subjectId]) else None;
      if subject.Some? {
        var user := if castable(n.userId) && n.userId in people then Some(people[n.userId]) else None;
        if user.Some? && Truthy(user.value.email) {
          attempts := attempts + [Attempt(due[i], user.value.email.value, RecipientName(user.value), subject.value,
                                          delivered(due[i]))];
        }
      }
      i := i + 1;
    }
    assert due[..i] == due;
  }

  /** How a tick as written ends: the attempts it made, and whether a lookup threw and cut it short. */
  datatype Outcome = Outcome(attempts: seq<Attempt>, aborted: bool)

  /**
   * The tick as written: both lookups sit outside the `try`, so the first id the
   * driver cannot cast throws out of the loop and the notifications after it
   * are not processed.
   */
  function AttemptsAsWritten(ids: seq<string>, docs: map<string, Notification>, subjects: map<string, string>,
                             people: map<string, UsersModel.User>, castable: string -> bool,
                             delivered: string -> bool): (r: Outcome)
    requires forall k :: 0 <= k < |ids| ==> ids[k] in docs
    ensures !r.aborted <==> forall k :: 0 <= k < |ids| ==> LookupsCast(docs[ids[k]], subjects, castable)
    decreases |ids|
  {
    if |ids| == 0 then Outcome([], false)
    else
      var last := ids[|ids| - 1];
      var before := AttemptsAsWritten(ids[..|ids| - 1], docs, subjects, people, castable, delivered);
      if before.aborted then before
      else if !LookupsCast(docs[last], subjects, castable) then Outcome(before.attempts, true)
      else match Reminder(docs[last], subjects, people)
        case None => before
        case Some((to, name, title)) => Outcome(before.attempts + [Attempt(last, to, name, title, delivered(last))], false)
  }

  /** The lookups of one notification that are reached do not throw. */
  predicate LookupsCast(n: Notification, subjects: map<string, string>, castable: string -> bool) {
    castable(n.subjectId) && (n.subjectId in subjects ==> castable(n.userId))
  }

  /** One more due notification: the tick as written either has already thrown, throws now, or goes on like the intended tick. */
  lemma AsWrittenSnoc(pre: seq<string>, id: string, docs: map<string, Notification>, subjects: map<string, string>,
                      people: map<string, UsersModel.User>, castable: string -> bool, delivered: string -> bool)
    requires id in docs && forall k :: 0 <= k < |pre| ==> pre[k] in docs
    ensures var before := AttemptsAsWritten(pre, docs, subjects, people, castable, delivered);
      !before.aborted ==>
        AttemptsAsWritten(pre + [id], docs, subjects, people, castable, delivered)
        == if !LookupsCast(docs[id], subjects, castable) then Outcome(before.attempts, true)
           else match Reminder(docs[id], subjects, people)
             case None => before
             case Some((to, name, title)) => Outcome(before.attempts + [Attempt(id, to, name, title, delivered(id))], false)
  {
    assert (pre + [id])[..|pre|] == pre;
  }

  /** Once a prefix of the tick has thrown, the rest of the due list is never looked at. */
  lemma {:induction false} AbortSticks(ids: seq<string>, n: nat, docs: map<string, Notification>, subjects: map<string, string>,
                                       people: map<string, UsersModel.User>, castable: string -> bool, delivered: string -> bool)
    requires n <= |ids| && forall k :: 0 <= k < |ids| ==> ids[k] in docs
    requires AttemptsAsWritten(ids[..n], docs, subjects, people, castable, delivered).aborted
    ensures AttemptsAsWritten(ids, docs, subjects, people, castable, delivered)
         == AttemptsAsWritten(ids[..n], docs, subjects, people, castable, delivered)
    decreases |ids|
  {
    if n == |ids| {
      assert ids[..n] == ids;
    } else {
      var init := ids[..|ids| - 1];
      assert init[..n] == ids[..n];
      AbortSticks(init, n, docs, subjects, people, castable, delivered);
    }
  }

  /**
   * The tick as written: a lookup by an id the driver cannot cast throws out of
   * the loop, ending the tick with the attempts made so far.
   */
  method TickAsWritten(notifications: Collection<Notification>, subjects: map<string, string>,
                       people: map<string, UsersModel.User>, castable: string -> bool, delivered: string -> bool,
                       day: string, hour: int, minute: int) returns (outcome: Outcome)
    requires notifications.Valid()
    ensures var due := Matching(notifications.order, notifications.docs, DueAt(day, hour, minute));
      (forall k :: 0 <= k < |due| ==> due[k] in notifications.docs)
      && outcome == AttemptsAsWritten(due, notifications.docs, subjects, people, castable, delivered)
  {
    var due := notifications.FindAll(DueAt(day, hour, minute));
    outcome := SendRemindersAsWritten(due, notifications.docs, subjects, people, castable, delivered);
  }

  /** The loop of the tick as written: it stops at the first lookup that throws. */
  method SendRemindersAsWritten(due: seq<string>, docs: map<string, Notification>, subjects: map<string, string>,
                                people: map<string, UsersModel.User>, castable: string -> bool,
                                delivered: string -> bool) returns (outcome: Outcome)
    requires forall k :: 0 <= k < |due| ==> due[k] in docs
    ensures outcome == AttemptsAsWritten(due, docs, subjects, people, castable, delivered)
  {
    var attempts := [];
    var i := 0;
    while i < |due|
      invariant 0 <= i <= |due|
      invariant AttemptsAsWritten(due[..i], docs, subjects, people, castable, delivered) == Outcome(attempts, false)
    {
      assert due[..i + 1] == due[..i] + [due[i]];
      AsWrittenSnoc(due[..i], due[i], docs, subjects, people, castable, delivered);
      var n := docs[due[i]];
      if !castable(n.subjectId) {
        // `Subject.findById` rejects with a CastError outside the `try`
        AbortSticks(due, i + 1, docs, subjects, people, castable, delivered);
        return Outcome(attempts, true);
      }
      if n.subjectId in subjects {
        if !castable(n.userId) {
          AbortSticks(due, i + 1, docs, subjects, people, castable, delivered);
          return Outcome(attempts, true);
        }
        if n.userId in people && Truthy(people[n.userId].email) {
          var user := people[n.userId];
          attempts := attempts + [Attempt(due[i], user.email.value, RecipientName(user), subjects[n.subjectId],
                                          delivered(due[i]))];
        }
      }
      i := i + 1;
    }
    assert due[..i] == due;
    outcome := Outcome(attempts, false);
  }

  /** When every id casts, the tick as written makes exactly the attempts of the intended tick. */
  lemma {:induction false} AsWrittenAgreesWhenIdsCast(ids: seq<string>, docs: map<string, Notification>,
                                                      subjects: map<string, string>, people: map<string, UsersModel.User>,
                                                      castable: string -> bool, delivered: string -> bool)
    requires forall k :: 0 <= k < |ids| ==> ids[k] in docs
    requires forall k :: 0 <= k < |ids| ==> LookupsCast(docs[ids[k]], subjects, castable)
    ensures AttemptsAsWritten(ids, docs, subjects, people, castable, delivered)
         == Outcome(Attempts(ids, docs, subjects, people, delivered), false)
    decreases |ids|
  {
    if |ids| > 0 {
      AsWrittenAgreesWhenIdsCast(ids[..|ids| - 1], docs, subjects, people, castable, delivered);
    }
  }

  /**
   * Two reminders due at the same minute, the first with a malformed subject id:
   * as written the tick throws before the second is sent; the intended tick
   * skips the first and sends the second.
   */
  lemma MalformedIdStopsTick()
    ensures var docs := map["n1" := Notification("bad", "Monday", 9, 0, "u1"),
                            "n2" := Notification("s2", "Monday", 9, 0, "u2")];
      var subjects := map["s2" := "Algebra"];
      var people := map["u2" := UsersModel.User(Some("dana"), Some("a@b.c"), Some("h"), None, None, [], None, false, None)];
      var castable := (s: string) => s != "bad";
      var delivered := (s: string) => true;
      AttemptsAsWritten(["n1", "n2"], docs, subjects, people, castable, delivered) == Outcome([], true)
      && Attempts(["n1", "n2"], docs, subjects, people, delivered)
         == [Attempt("n2", "a@b.c", "dana", "Algebra", true)]
  {
    var docs := map["n1" := Notification("bad", "Monday", 9, 0, "u1"),
                    "n2" := Notification("s2", "Monday", 9, 0, "u2")];
    var subjects := map["s2" := "Algebra"];
    var people := map["u2" := UsersModel.User(Some("dana"), Some("a@b.c"), Some("h"), None, None, [], None, false, None)];
    var castable := (s: string) => s != "bad";
    var delivered := (s: string) => true;
    var ids := ["n1", "n2"];
    assert ids[..1] == ["n1"];
    assert ["n1"][..0] == [];
    assert !LookupsCast(docs["n1"], subjects, castable);
    assert AttemptsAsWritten(["n1"], docs, subjects, people, castable, delivered) == Outcome([], true);
    assert Attempts(["n1"], docs, subjects, people, delivered) == [];
    assert RecipientName(people["u2"]) == "dana";
  }
}
