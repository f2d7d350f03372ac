/** Manual Chat Message: a message a sender addresses to chosen users (or to
    every enabled user), sent at once or once per working day after a
    trigger time. Sending never talks to the chat service directly: it adds
    one Pending record per receiver to the Chat Message Queue, which a
    background worker drains. */
module ChatQueue {
  import opened Wrappers
  import opened Calendar
  import opened Holidays
  import Text

  /** A User as `get_all_users` reads it. */
  datatype User = User(name: string, enabled: bool)

  /** A Chat Message Queue record. */
  datatype QueueRecord = QueueRecord(
    sender: string,
    receiver: string,
    content: string,
    manualChatMessage: string,
    status: string)

  /** Accounts that never receive a bulk message. */
  predicate Reserved(name: string)
  {
    name == "Guest" || name == "Administrator"
  }

  /** `get_all_users`: the names of the enabled users other than Guest and
      Administrator, in table order. */
  function AllUsers(users: seq<User>): (r: seq<string>)
    ensures forall n :: n in r <==> exists u :: u in users && u.name == n && u.enabled && !Reserved(n)
    ensures |r| <= |users|
  {
    if users == [] then []
    else
      var u := users[|users| - 1];
      AllUsers(users[..|users| - 1]) + (if u.enabled && !Reserved(u.name) then [u.name] else [])
  }

  /** The receivers table with its empty cells dropped, in table order. */
  function FilledRows(rows: seq<string>): (r: seq<string>)
    ensures forall n :: n in r <==> n in rows && n != ""
    ensures |r| <= |rows|
  {
    if rows == [] then []
    else
      var x := rows[|rows| - 1];
      FilledRows(rows[..|rows| - 1]) + (if x != "" then [x] else [])
  }

  /** `get_receivers`: every enabled user when "select all users" is set,
      otherwise the filled receiver rows. */
  function Receivers(selectAll: bool, users: seq<User>, rows: seq<string>): (r: seq<string>)
    ensures selectAll ==> forall n :: n in r <==> exists u :: u in users && u.name == n && u.enabled && !Reserved(n)
    ensures !selectAll ==> forall n :: n in r <==> n in rows && n != ""
  {
    if selectAll then AllUsers(users) else FilledRows(rows)
  }

  /** The queue records for a list of receivers: one Pending record each, in
      the order of the list. */
  function PendingFor(sender: string, content: string, message: string, receivers: seq<string>): (r: seq<QueueRecord>)
    ensures |r| == |receivers|
    ensures forall i :: 0 <= i < |r| ==> r[i] == QueueRecord(sender, receivers[i], content, message, "Pending")
  {
    if receivers == [] then []
    else PendingFor(sender, content, message, receivers[..|receivers| - 1])
           + [QueueRecord(sender, receivers[|receivers| - 1], content, message, "Pending")]
  }

  /** The queued records address exactly the receivers, one record each,
      in order. */
  lemma PendingReceivers(sender: string, content: string, message: string, receivers: seq<string>)
    ensures ReceiverColumn(PendingFor(sender, content, message, receivers)) == receivers
  {
  }

  /** The receiver column of a queue. */
  function ReceiverColumn(q: seq<QueueRecord>): (r: seq<string>)
    ensures |r| == |q| && forall i :: 0 <= i < |q| ==> r[i] == q[i].receiver
  {
    if q == [] then [] else ReceiverColumn(q[..|q| - 1]) + [q[|q| - 1].receiver]
  }

  /** Time of day as its text: the send fires once `str(now)` is not
      lexicographically below `str(trigger_time)`. */
  predicate TimeReached(now: string, trigger: string)
  {
    !Text.StrLess(now, trigger)
  }

  /** A Manual Chat Message document together with the Chat Message Queue
      it adds to. */
  class ManualChatMessage {
    const name: string
    var sender: string
    var content: string
    var selectAllUsers: bool
    var receiverRows: seq<string>
    var isScheduled: bool
    var lastSentDate: Option<Date>
    var triggerTime: string
    /** The Chat Message Queue table. */
    var queue: seq<QueueRecord>

    constructor (name: string, sender: string, content: string, selectAllUsers: bool, receiverRows: seq<string>,
                 isScheduled: bool, triggerTime: string, queue: seq<QueueRecord>)
      ensures this.name == name && this.sender == sender && this.content == content
      ensures this.selectAllUsers == selectAllUsers && this.receiverRows == receiverRows
      ensures this.isScheduled == isScheduled && this.lastSentDate == None && this.triggerTime == triggerTime
      ensures this.queue == queue
    {
      this.name := name;
      this.sender := sender;
      this.content := content;
      this.selectAllUsers := selectAllUsers;
      this.receiverRows := receiverRows;
      this.isScheduled := isScheduled;
      this.lastSentDate := None;
      this.triggerTime := triggerTime;
      this.queue := queue;
    }

    /** `add_to_queue`: one Pending record for this message. */
    method AddToQueue(receiver: string)
      modifies this`queue
      ensures queue == old(queue) + [QueueRecord(sender, receiver, content, name, "Pending")]
    {
      queue := queue + [QueueRecord(sender, receiver, content, name, "Pending")];
    }

    /** The loop over the receivers shared by every way of sending. */
    method QueueAll(receivers: seq<string>)
      modifies this`queue
      ensures queue == old(queue) + PendingFor(sender, content, name, receivers)
    {
      var k := 0;
      while k < |receivers|
        invariant 0 <= k <= |receivers|
        invariant queue == old(queue) + PendingFor(sender, content, name, receivers[..k])
      {
        assert receivers[..k + 1][..k] == receivers[..k];
        AddToQueue(receivers[k]);
        k := k + 1;
      }
      assert receivers[..k] == receivers;
    }

    /** `send_bulk_messages`: sender, content and at least one receiver are
        required; then one Pending record per receiver, and the count. */
    method SendBulkMessages(users: seq<User>) returns (r: Result<nat>)
      modifies this`queue
      ensures sender == "" ==> r == Err("Sender is required")
      ensures sender != "" && content == "" ==> r == Err("Content is required")
      ensures (sender != "" && content != "" && Receivers(selectAllUsers, users, receiverRows) == [])
                ==> r == Err("At least one receiver is required")
      ensures r.Err? ==> queue == old(queue)
      ensures r.Ok? ==> var rs := Receivers(selectAllUsers, users, receiverRows);
                        r.value == |rs| && queue == old(queue) + PendingFor(sender, content, name, rs)
    {
      if sender == "" {
        return Err("Sender is required");
      }
      if content == "" {
        return Err("Content is required");
      }
      var receivers := Receivers(selectAllUsers, users, receiverRows);
      if receivers == [] {
        return Err("At least one receiver is required");
      }
      QueueAll(receivers);
      r := Ok(|receivers|);
    }

    /** `process_scheduled_send`, run by the scheduler: skipped unless the
        message is scheduled, was not yet sent on or after `today`, today is a
        working day and the trigger time is reached; otherwise queues every
        receiver and records today as the last sent date, even with no
        receivers. */
    method ProcessScheduledSend(users: seq<User>, lists: seq<HolidayList>, today: Date, now: string)
      modifies this`queue, this`lastSentDate
      ensures !isScheduled ==> queue == old(queue) && lastSentDate == old(lastSentDate)
      ensures (old(lastSentDate).Some? && Ord(old(lastSentDate).value) >= Ord(today))
                ==> queue == old(queue) && lastSentDate == old(lastSentDate)
      ensures !IsWorkingDay(lists, today) ==> queue == old(queue) && lastSentDate == old(lastSentDate)
      ensures !TimeReached(now, triggerTime) ==> queue == old(queue) && lastSentDate == old(lastSentDate)
      ensures (isScheduled && (old(lastSentDate).None? || Ord(old(lastSentDate).value) < Ord(today))
               && IsWorkingDay(lists, today) && TimeReached(now, triggerTime))
                ==> queue == old(queue) + PendingFor(sender, content, name, Receivers(selectAllUsers, users, receiverRows))
                    && lastSentDate == Some(today)
      ensures lastSentDate == old(lastSentDate) || lastSentDate == Some(today)
    {
      if !isScheduled {
        return;
      }
      if lastSentDate.Some? && Ord(lastSentDate.value) >= Ord(today) {
        return;
      }
      if !IsWorkingDay(lists, today) {
        return;
      }
      if Text.StrLess(now, triggerTime) {
        return;
      }
      var receivers := Receivers(selectAllUsers, users, receiverRows);
      QueueAll(receivers);
      lastSentDate := Some(today);
    }

    /** `test_scheduled_send`: the sending part without the date and time
        gate; fails when there is no receiver. */
    method TestScheduledSend(users: seq<User>) returns (r: Result<nat>)
      modifies this`queue
      ensures (Receivers(selectAllUsers, users, receiverRows) == [])
                ==> r == Err("No receivers found (check 'Select All Users' or receivers table)") && queue == old(queue)
      ensures (Receivers(selectAllUsers, users, receiverRows) != [])
                ==> var rs := Receivers(selectAllUsers, users, receiverRows);
                    r == Ok(|rs|) && queue == old(queue) + PendingFor(sender, content, name, rs)
    {
      var receivers := Receivers(selectAllUsers, users, receiverRows);
      if receivers == [] {
        return Err("No receivers found (check 'Select All Users' or receivers table)");
      }
      QueueAll(receivers);
      r := Ok(|receivers|);
    }
  }

  /** Once per day: a scheduled run that went through records `today`, so a
      second run on the same day is stopped by the last-sent check, whatever
      the time. */
  method SecondRunSameDay(m: ManualChatMessage, users: seq<User>, lists: seq<HolidayList>, today: Date, now1: string, now2: string)
    modifies m`queue, m`lastSentDate
    ensures m.queue == old(m.queue) + PendingFor(m.sender, m.content, m.name, Receivers(m.selectAllUsers, users, m.receiverRows))
            || m.queue == old(m.queue)
  {
    m.ProcessScheduledSend(users, lists, today, now1);
    m.ProcessScheduledSend(users, lists, today, now2);
  }
}
