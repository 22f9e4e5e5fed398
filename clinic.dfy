/**
 * The booking dialogue behind the chat webhook and the follow-up scheduler,
 * with the database tables held as fields of one store object.
 */
module Clinic {
  import opened Text
  import opened Pool

  /** One day, in seconds: the age an appointment needs before a follow-up. */
  const Day: int := 86400

  /** The display name every appointment is booked under. */
  const PatientName: string := "Patient"

  /** The `last_step` of a caller; a caller with no row has no step. */
  datatype Step = Greeting | ChoosingSlot

  /** A row of the `appointments` table. */
  datatype Appointment = Appointment(id: nat, phone: string, name: string, slot: string, createdAt: int)

  /** The only status the source writes into a follow-up row. */
  datatype Status = Pending

  /** A row of the `followups` table. */
  datatype Followup = Followup(id: nat, appointmentId: nat, reminderSent: int, status: Status)

  // ---------------------------------------------------------------- replies

  /** The five replies the webhook sends; `ReplyText` gives their wording. */
  datatype Reply =
    | Menu                         // the greeting with the numbered options
    | SlotList(pool: seq<string>)  // the slots open when the reply was made
    | Booked(slot: string)         // the confirmation of a booking
    | InvalidSlot                  // the choice is not an open slot
    | NotUnderstood                // anything else

  const SlotPrompt: string := "Please choose a slot:"

  /** The fixed words the booking confirmation starts with. */
  const BookedOpening: string := "Appointment booked at "

  function ReplyText(r: Reply): string {
    match r
    case Menu => "Hello! Welcome to ABC Clinic. Please choose:\n1. Book Appointment\n2. Reschedule\n3. Follow-up Reminder"
    case SlotList(pool) => SlotPrompt + "\n" + Join(pool, "\n")
    case Booked(slot) => BookedOpening + slot + ". Thank you!"
    case InvalidSlot => "Slot not available or invalid. Please choose a valid slot."
    case NotUnderstood => "Sorry, I didn't understand that. Please type 'hi' to start again."
  }

  /**
   * The slot menu lists exactly the pool, in its order: splitting the reply
   * into lines gives the prompt followed by the labels (or one empty line
   * when the pool is empty).
   */
  lemma SlotMenuLists(pool: seq<string>)
    requires forall k :: 0 <= k < |pool| ==> '\n' !in pool[k]
    ensures Split(ReplyText(SlotList(pool)), '\n') == [SlotPrompt] + (if pool == [] then [""] else pool)
  {
    var body := Join(pool, "\n");
    assert ReplyText(SlotList(pool)) == SlotPrompt + ("\n" + body);
    SplitPrefix(SlotPrompt, "\n" + body, '\n');
    assert ("\n" + body)[0] == '\n' && ("\n" + body)[1..] == body;
    if pool == [] {
      assert Split(body, '\n') == [""];
    } else {
      SplitJoin(pool, '\n');
    }
    assert SlotPrompt + [] == SlotPrompt;
  }

  /** The confirmation names the booked slot right after its fixed opening words. */
  lemma BookedNamesSlot(slot: string)
    ensures ReplyText(Booked(slot))[..|BookedOpening| + |slot|] == BookedOpening + slot
  {
  }

  /** No label the pool can hold spans more than one line. */
  lemma PoolLabelsSingleLine(taken: set<string>)
    ensures forall k :: 0 <= k < |Without(Catalog, taken)| ==> '\n' !in Without(Catalog, taken)[k]
  {
    var pool := Without(Catalog, taken);
    forall k | 0 <= k < |pool|
      ensures '\n' !in pool[k]
    {
      WithoutMembers(Catalog, taken);
      assert pool[k] in Catalog;
    }
  }

  // ---------------------------------------------------------------- follow-ups

  /** The scheduler's query: is the appointment at least a day old at `now`? */
  predicate IsDue(a: Appointment, now: int) {
    a.createdAt <= now - Day
  }

  /**
   * The rows the scheduler's query returns, in table order: every due
   * appointment as often as the table holds it, and nothing newer.
   */
  function Due(appts: seq<Appointment>, now: int): (r: seq<Appointment>)
    ensures forall a :: multiset(r)[a] == if IsDue(a, now) then multiset(appts)[a] else 0
  {
    if appts == [] then []
    else
      assert appts == [appts[0]] + appts[1..];
      (if IsDue(appts[0], now) then [appts[0]] else []) + Due(appts[1..], now)
  }

  /** The follow-up rows one scheduler run inserts for `due`, numbered from `id0`. */
  function Reminders(due: seq<Appointment>, id0: nat, sent: int): seq<Followup> {
    if due == [] then []
    else [Followup(id0, due[0].id, sent, Pending)] + Reminders(due[1..], id0 + 1, sent)
  }

  /** How many follow-ups in `fs` refer to appointment `appt`. */
  function CountRef(fs: seq<Followup>, appt: nat): nat {
    if fs == [] then 0
    else (if fs[0].appointmentId == appt then 1 else 0) + CountRef(fs[1..], appt)
  }

  predicate DistinctIds(appts: seq<Appointment>) {
    forall i, j :: 0 <= i < j < |appts| ==> appts[i].id != appts[j].id
  }

  predicate DistinctFollowupIds(fs: seq<Followup>) {
    forall i, j :: 0 <= i < j < |fs| ==> fs[i].id != fs[j].id
  }

  lemma {:induction false} RemindersAppend(x: seq<Appointment>, y: seq<Appointment>, id0: nat, sent: int)
    ensures Reminders(x + y, id0, sent) == Reminders(x, id0, sent) + Reminders(y, id0 + |x|, sent)
  {
    if x != [] {
      assert (x + y)[1..] == x[1..] + y;
      RemindersAppend(x[1..], y, id0 + 1, sent);
    } else {
      assert x + y == y;
    }
  }

  /** The reminders are numbered consecutively from `id0`, all pending, all sent at `sent`. */
  lemma {:induction false} RemindersShape(due: seq<Appointment>, id0: nat, sent: int)
    ensures |Reminders(due, id0, sent)| == |due|
    ensures forall k :: 0 <= k < |due| ==>
      Reminders(due, id0, sent)[k] == Followup(id0 + k, due[k].id, sent, Pending)
  {
    if due != [] {
      RemindersShape(due[1..], id0 + 1, sent);
    }
  }

  lemma {:induction false} CountRefAppend(x: seq<Followup>, y: seq<Followup>, appt: nat)
    ensures CountRef(x + y, appt) == CountRef(x, appt) + CountRef(y, appt)
  {
    if x != [] {
      assert (x + y)[1..] == x[1..] + y;
      CountRefAppend(x[1..], y, appt);
    } else {
      assert x + y == y;
    }
  }

  /** The query result splits at the first row. */
  lemma DueCons(appts: seq<Appointment>, now: int)
    requires appts != []
    ensures Due(appts, now) == (if IsDue(appts[0], now) then [appts[0]] else []) + Due(appts[1..], now)
  {
  }

  /** A run inserts no follow-up for an id that no appointment has. */
  lemma {:induction false} NoReminderForUnknown(appts: seq<Appointment>, now: int, id0: nat, sent: int, x: nat)
    requires forall k :: 0 <= k < |appts| ==> appts[k].id != x
    ensures CountRef(Reminders(Due(appts, now), id0, sent), x) == 0
  {
    if appts != [] {
      var head := if IsDue(appts[0], now) then [appts[0]] else [];
      DueCons(appts, now);
      RemindersAppend(head, Due(appts[1..], now), id0, sent);
      CountRefAppend(Reminders(head, id0, sent), Reminders(Due(appts[1..], now), id0 + |head|, sent), x);
      NoReminderForUnknown(appts[1..], now, id0 + |head|, sent, x);
    }
  }

  /**
   * One run inserts exactly one follow-up for each appointment that is a day
   * old and none for a newer one (appointment ids are unique).
   */
  lemma {:induction false} ReminderPerDueAppointment(appts: seq<Appointment>, now: int, id0: nat, sent: int)
    requires DistinctIds(appts)
    ensures forall k :: 0 <= k < |appts| ==>
      CountRef(Reminders(Due(appts, now), id0, sent), appts[k].id) == if IsDue(appts[k], now) then 1 else 0
  {
    if appts != [] {
      var b, rest := appts[0], appts[1..];
      var head := if IsDue(b, now) then [b] else [];
      var r1, r2 := Reminders(head, id0, sent), Reminders(Due(rest, now), id0 + |head|, sent);
      DueCons(appts, now);
      RemindersAppend(head, Due(rest, now), id0, sent);
      assert DistinctIds(rest);
      ReminderPerDueAppointment(rest, now, id0 + |head|, sent);
      forall k | 0 <= k < |appts|
        ensures CountRef(Reminders(Due(appts, now), id0, sent), appts[k].id) == if IsDue(appts[k], now) then 1 else 0
      {
        CountRefAppend(r1, r2, appts[k].id);
        if k == 0 {
          NoReminderForUnknown(rest, now, id0 + |head|, sent, b.id);
        } else {
          assert appts[k] == rest[k - 1];
        }
      }
    }
  }

  /**
   * The scheduler has no duplicate check: two runs over the same appointments
   * insert one follow-up per run for each appointment due at that run, so an
   * appointment due at both runs gets two.
   */
  lemma RerunDuplicates(appts: seq<Appointment>, now1: int, now2: int, id1: nat, id2: nat, sent1: int, sent2: int)
    requires DistinctIds(appts)
    ensures forall k :: 0 <= k < |appts| ==>
      CountRef(Reminders(Due(appts, now1), id1, sent1) + Reminders(Due(appts, now2), id2, sent2), appts[k].id)
      == (if IsDue(appts[k], now1) then 1 else 0) + (if IsDue(appts[k], now2) then 1 else 0)
    ensures now1 <= now2 ==> forall k :: 0 <= k < |appts| && IsDue(appts[k], now1) ==>
      CountRef(Reminders(Due(appts, now1), id1, sent1) + Reminders(Due(appts, now2), id2, sent2), appts[k].id) == 2
  {
    var r1, r2 := Reminders(Due(appts, now1), id1, sent1), Reminders(Due(appts, now2), id2, sent2);
    ReminderPerDueAppointment(appts, now1, id1, sent1);
    ReminderPerDueAppointment(appts, now2, id2, sent2);
    forall k | 0 <= k < |appts|
      ensures CountRef(r1 + r2, appts[k].id) == (if IsDue(appts[k], now1) then 1 else 0) + (if IsDue(appts[k], now2) then 1 else 0)
    {
      CountRefAppend(r1, r2, appts[k].id);
    }
  }

  // ---------------------------------------------------------------- invariants

  /** Each appointment in `appts` holds a booked label, and no label twice. */
  ghost predicate BookedOnce(appts: seq<Appointment>, booked: set<string>) {
    && (forall i :: 0 <= i < |appts| ==> appts[i].slot in booked)
    && (forall i, j :: 0 <= i < j < |appts| ==> appts[i].slot != appts[j].slot)
  }

  /**
   * The slot list is the seed catalog minus the labels booked since the
   * process started, and those bookings are the appointments from `session` on.
   */
  ghost predicate PoolInv(catalog: seq<string>, booked: set<string>, slots: seq<string>, session: nat, appts: seq<Appointment>) {
    && NoDup(catalog)
    && slots == Without(catalog, booked)
    && session <= |appts|
    && BookedOnce(appts[session..], booked)
  }

  /** Every id in the two tables is unique and below the next fresh id. */
  ghost predicate IdsInv(appts: seq<Appointment>, fs: seq<Followup>, nextId: nat) {
    && DistinctIds(appts)
    && (forall i :: 0 <= i < |appts| ==> appts[i].id < nextId)
    && DistinctFollowupIds(fs)
    && (forall i :: 0 <= i < |fs| ==> fs[i].id < nextId)
  }

  lemma DropAppend<T>(s: seq<T>, x: T, k: nat)
    requires k <= |s|
    ensures (s + [x])[k..] == s[k..] + [x]
  {
  }

  /** Recording a booking of a label not booked before keeps every label booked once. */
  lemma BookedOnceAppend(run: seq<Appointment>, booked: set<string>, a: Appointment)
    requires BookedOnce(run, booked) && a.slot !in booked
    ensures BookedOnce(run + [a], booked + {a.slot})
  {
    assert forall i :: 0 <= i < |run| ==> run[i].slot != a.slot;
  }

  /**
   * Booking an open slot keeps the pool invariant: the label leaves the
   * list and joins the booked labels, and the other labels stay in order.
   */
  lemma BookingKeepsPool(catalog: seq<string>, booked: set<string>, slots: seq<string>, session: nat,
                         appts: seq<Appointment>, a: Appointment)
    requires PoolInv(catalog, booked, slots, session, appts)
    requires a.slot in slots
    ensures PoolInv(catalog, booked + {a.slot}, Remove(slots, a.slot), session, appts + [a])
  {
    WithoutMembers(catalog, booked);
    RemoveBooks(catalog, booked, a.slot);
    DropAppend(appts, a, session);
    BookedOnceAppend(appts[session..], booked, a);
  }

  /** After a booking the list holds every label it held before except the booked one. */
  lemma BookedLabelGone(catalog: seq<string>, booked: set<string>, x: string)
    requires NoDup(catalog) && x in Without(catalog, booked)
    ensures forall l :: l in Remove(Without(catalog, booked), x) <==> l in Without(catalog, booked) && l != x
  {
    RemoveBooks(catalog, booked, x);
    WithoutMembers(catalog, booked);
    WithoutMembers(catalog, booked + {x});
  }

  /** A new appointment under the next fresh id keeps every id unique. */
  lemma NewAppointmentKeepsIds(appts: seq<Appointment>, fs: seq<Followup>, nextId: nat, a: Appointment)
    requires IdsInv(appts, fs, nextId) && a.id == nextId
    ensures IdsInv(appts + [a], fs, nextId + 1)
  {
  }

  /** Appending follow-ups numbered consecutively from the next fresh id keeps every id unique. */
  lemma NewFollowupsKeepIds(appts: seq<Appointment>, fs: seq<Followup>, nextId: nat, added: seq<Followup>)
    requires IdsInv(appts, fs, nextId)
    requires forall k :: 0 <= k < |added| ==> added[k].id == nextId + k
    ensures IdsInv(appts, fs + added, nextId + |added|)
  {
  }

  /**
   * The source's insert loop: one pending follow-up per due appointment,
   * in order, each under the next fresh id.
   */
  method NewReminders(due: seq<Appointment>, id0: nat, sent: int) returns (added: seq<Followup>)
    ensures added == Reminders(due, id0, sent)
  {
    added := [];
    var id := id0;
    for i := 0 to |due|
      invariant added == Reminders(due[..i], id0, sent)
      invariant id == id0 + i
    {
      RemindersAppend(due[..i], [due[i]], id0, sent);
      TakeSnoc(due, i);
      added := added + [Followup(id, due[i].id, sent, Pending)];
      id := id + 1;
    }
    TakeAll(due);
  }

  lemma TakeSnoc<T>(s: seq<T>, i: nat)
    requires i < |s|
    ensures s[..i + 1] == s[..i] + [s[i]]
  {
  }

  lemma TakeAll<T>(s: seq<T>)
    ensures s[..|s|] == s
  {
  }

  lemma DropConcat<T>(a: seq<T>, b: seq<T>)
    ensures (a + b)[|a|..] == b
  {
  }

  // ---------------------------------------------------------------- the store

  /**
   * The process's state: the three tables and the slot list. The tables
   * persist across restarts; the slot list is reseeded from the catalog.
   */
  class Store {
    /** The labels the slot list was seeded with. */
    const catalog: seq<string>
    var state: map<string, Step>
    var slots: seq<string>
    var appointments: seq<Appointment>
    var followups: seq<Followup>
    /** The next fresh id; stands for `uuid.uuid4()`. */
    var nextId: nat

    /** The labels booked since the process started. */
    ghost var booked: set<string>
    /** The first appointment booked since the process started. */
    ghost var session: nat

    ghost predicate Valid()
      reads this`slots, this`appointments, this`followups, this`nextId, this`booked, this`session
    {
      PoolInv(catalog, booked, slots, session, appointments) && IdsInv(appointments, followups, nextId)
    }

    /** Process start: the tables as the database holds them, the slot list seeded. */
    constructor (state0: map<string, Step>, appointments0: seq<Appointment>, followups0: seq<Followup>, nextId0: nat)
      requires DistinctIds(appointments0) && DistinctFollowupIds(followups0)
      requires forall i :: 0 <= i < |appointments0| ==> appointments0[i].id < nextId0
      requires forall i :: 0 <= i < |followups0| ==> followups0[i].id < nextId0
      ensures Valid()
      ensures catalog == Catalog && slots == Catalog
      ensures state == state0 && appointments == appointments0
      ensures followups == followups0 && nextId == nextId0
      ensures booked == {} && session == |appointments0|
    {
      catalog, slots := Catalog, Catalog;
      state, appointments, followups, nextId := state0, appointments0, followups0, nextId0;
      booked, session := {}, |appointments0|;
      CatalogNoDup();
      WithoutNothing(Catalog);
    }

    /**
     * Books the open slot `slot` for `phone` at `now`: records the
     * appointment, takes the label out of the slot list and ends the
     * caller's conversation.
     */
    method Book(phone: string, slot: string, now: int)
      requires Valid() && slot in slots
      modifies this
      ensures Valid()
      ensures appointments == old(appointments) + [Appointment(old(nextId), phone, PatientName, slot, now)]
      ensures nextId == old(nextId) + 1
      ensures slots == Remove(old(slots), slot) && slot !in slots
      ensures forall l :: l in slots <==> l in old(slots) && l != slot
      ensures state == old(state) - {phone}
      ensures booked == old(booked) + {slot}
      ensures followups == old(followups) && session == old(session)
    {
      var a := Appointment(nextId, phone, PatientName, slot, now);
      var appointments', slots', booked' := appointments + [a], Remove(slots, slot), booked + {slot};
      BookingKeepsPool(catalog, booked, slots, session, appointments, a);
      BookedLabelGone(catalog, booked, slot);
      NewAppointmentKeepsIds(appointments, followups, nextId, a);
      assert PoolInv(catalog, booked', slots', session, appointments');
      assert IdsInv(appointments', followups, nextId + 1);
      appointments, slots, booked := appointments', slots', booked';
      nextId := nextId + 1;
      state := state - {phone};
    }

    /**
     * One inbound chat message from `from` with text `body`, received at `now`.
     * Returns the reply.
     */
    method HandleMessage(from: string, body: string, now: int) returns (reply: Reply)
      requires Valid()
      modifies this
      ensures Valid()
      ensures followups == old(followups) && session == old(session)
      ensures forall l :: l in slots ==> l in old(slots)
      ensures
        var phone, message := CallerId(from), Normalize(body);
        if message == "hi" || phone !in old(state) then
          && state == old(state)[phone := Greeting]
          && slots == old(slots) && appointments == old(appointments)
          && nextId == old(nextId) && booked == old(booked)
          && reply == Menu
        else if old(state)[phone] == Greeting && message == "1" then
          && state == old(state)[phone := ChoosingSlot]
          && slots == old(slots) && appointments == old(appointments)
          && nextId == old(nextId) && booked == old(booked)
          && reply == SlotList(old(slots))
        else if old(state)[phone] == ChoosingSlot && Upper(message) in old(slots) then
          && state == old(state) - {phone}
          && slots == Remove(old(slots), Upper(message))
          && Upper(message) !in slots
          && appointments == old(appointments) + [Appointment(old(nextId), phone, PatientName, Upper(message), now)]
          && nextId == old(nextId) + 1 && booked == old(booked) + {Upper(message)}
          && reply == Booked(Upper(message))
        else
          && state == old(state) && slots == old(slots) && appointments == old(appointments)
          && nextId == old(nextId) && booked == old(booked)
          && reply == (if old(state)[phone] == ChoosingSlot then InvalidSlot else NotUnderstood)
    {
      var message := Normalize(body);
      var phone := CallerId(from);
      if message == "hi" || phone !in state {
        state := state[phone := Greeting];
        reply := Menu;
      } else if state[phone] == Greeting && message == "1" {
        state := state[phone := ChoosingSlot];
        reply := SlotList(slots);
      } else if state[phone] == ChoosingSlot {
        var slot := Upper(message);
        if slot in slots {
          Book(phone, slot, now);
          reply := Booked(slot);
        } else {
          reply := InvalidSlot;
        }
      } else {
        reply := NotUnderstood;
      }
    }

    /**
     * The maintenance run at time `now`: one pending follow-up, sent at `now`,
     * for every appointment at least a day old. Returns how many it inserted.
     * The rows are collected first and stored together, as the source's
     * inserts become visible together at its single commit.
     */
    method ScheduleFollowups(now: int) returns (count: nat)
      requires Valid()
      modifies this
      ensures Valid()
      ensures state == old(state) && slots == old(slots) && appointments == old(appointments)
      ensures booked == old(booked) && session == old(session)
      ensures count == |Due(appointments, now)|
      ensures followups == old(followups) + Reminders(Due(appointments, now), old(nextId), now)
      ensures nextId == old(nextId) + count
      ensures forall k :: 0 <= k < |appointments| ==>
        CountRef(followups[|old(followups)|..], appointments[k].id) == if IsDue(appointments[k], now) then 1 else 0
    {
      var appts := Due(appointments, now);
      var added := NewReminders(appts, nextId, now);
      RemindersShape(appts, nextId, now);
      ReminderPerDueAppointment(appointments, now, nextId, now);
      NewFollowupsKeepIds(appointments, followups, nextId, added);
      var followups', nextId' := followups + added, nextId + |appts|;
      DropConcat(followups, added);
      assert IdsInv(appointments, followups', nextId');
      followups, nextId := followups', nextId';
      count := |appts|;
    }
  }
}
