# ABC Clinic WhatsApp booking bot — Dafny model

The system is a small chat webhook for a clinic. A caller opens the
conversation with "hi" (or with any message when the caller has no stored
step) and gets the menu. Answering "1" gets the list of open time slots.
Answering with one of those labels, in any case, books it. A booking:

- records an appointment row;
- removes the label from the process-wide slot list, so nobody else can book it;
- ends the caller's conversation.

Every other message gets a fixed fallback reply. A separate maintenance
endpoint inserts one pending follow-up row for every appointment that is at
least a day old.

The model has three modules:

- `Text` (`text.dfy`) covers how the webhook reads its input:
  - Python's `str.strip()` (with the `str.isspace()` character set), then `lower()`;
  - `upper()` for the slot choice;
  - `split(':')[-1]` for the caller id;
  - `"\n".join` for the slot menu, with a `Split` that undoes it.
- `Pool` (`pool.dfy`) has the seed catalog of slot labels and the pool filter
  `Without(catalog, booked)`. It also has `Remove`, which is `list.remove`
  (the first occurrence goes).
- `Clinic` (`clinic.dfy`) has:
  - the table rows as datatypes;
  - the five replies as a `Reply` datatype, with `ReplyText` giving the exact wording;
  - the scheduler's query as `Due`, and the rows one run inserts as `Reminders`;
  - `class Store`, which holds the conversation-state table (a `map`), the slot
    list, the appointments and follow-ups tables, and a counter for fresh ids.

`Store.HandleMessage` is the webhook and `Store.ScheduleFollowups` is the
maintenance run. Both keep the invariant `Store.Valid()`, which says:

- the slot list is always the catalog minus the labels booked since the
  process started, in catalog order and without duplicates;
- no label is booked twice in that time;
- every row id is unique and below the counter.

The current time is a parameter `now`, in seconds, and a day is 86400.

## Model

| member | source | states |
|---|---|---|
| Text.Normalize | app.py:54 | definition: the message as compared is `Lower(Strip(body))`, whose meaning `Strip` and `Lower` give |
| Text.Strip | app.py:54 | the stripped text is a slice of the input, everything cut off on either side is whitespace, and it neither starts nor ends with whitespace |
| Text.Lower | app.py:54 | lower-casing keeps the length and maps every character by ASCII lower-case |
| Text.Upper | app.py:77 | upper-casing keeps the length and maps every character by ASCII upper-case |
| Text.UpperOfLower | app.py:54-77 | upper-casing the normalised message equals upper-casing the stripped one, so the slot choice ignores the caller's case |
| Text.CallerId | app.py:55 | the caller id is the longest colon-free suffix of `From`: it has no ':', it is preceded by ':' or is the whole field, and it is the whole field when there is no ':' |
| Text.SplitLast | app.py:55 | the last piece of a split is a separator-free suffix of the text that is all of it or follows a separator |
| Text.CallerIdIsLastPiece | app.py:55 | the caller id equals the last piece of `From.split(':')`, the source's own expression |
| Text.Join | app.py:73 | definition of `"\n".join`; `SplitJoin` and `Split` give its inverse |
| Text.Split | app.py:73 | splitting gives at least one piece, no piece holds the separator, and joining the pieces gives the text back |
| Text.SplitPrefix | app.py:74 | a separator-free prefix joins the first piece of the split |
| Text.SplitJoin | app.py:73 | round trip: splitting a join of separator-free labels gives the labels back |
| Pool.Catalog | app.py:49 | definition: the six seed labels in menu order |
| Pool.Without | app.py:49 | definition of the pool as the catalog filtered by the booked labels; `WithoutMembers`, `WithoutNoDup` and `RemoveBooks` give its meaning |
| Pool.WithoutMembers | app.py:49 | a label is in the pool exactly when it is in the catalog and not booked, and the pool is never longer than the catalog |
| Pool.WithoutNothing | app.py:49 | before any booking the pool is the whole catalog |
| Pool.CatalogNoDup | app.py:49 | the catalog has no duplicate label |
| Pool.WithoutNoDup | app.py:49 | the pool never holds a label twice |
| Pool.Remove | app.py:81 | removal drops exactly one occurrence of the label: the multiset loses that label and the length drops by one |
| Pool.RemoveFirstAt | app.py:81 | removal takes out the first occurrence only: the labels before and after it keep their places and order |
| Pool.WithoutAbsent | app.py:78-81 | marking a label the catalog lacks as booked leaves the pool unchanged |
| Pool.RemoveBooks | app.py:78-81 | removing an open label from the pool gives the pool with that label booked, the rest in order |
| Clinic.ReplyText | app.py:68-89 | definition: the exact wording of the five replies; `SlotMenuLists` and `BookedNamesSlot` give the two that carry data |
| Clinic.SlotMenuLists | app.py:73-74 | the lines of the slot menu are the prompt and then exactly the open labels in order (one empty line when none is open) |
| Clinic.BookedNamesSlot | app.py:84 | the confirmation starts with "Appointment booked at " followed by the booked label |
| Clinic.PoolLabelsSingleLine | app.py:49 | no label the pool can hold contains a line break, so the menu lines are the labels |
| Clinic.IsDue | app.py:95 | definition of the query's condition `created_at <= now - 1 day`, with a day of 86400 seconds |
| Clinic.Due | app.py:95-96 | the query returns every appointment at least a day old, as often as the table holds it, and none newer |
| Clinic.Reminders | app.py:97-99 | definition of the rows one run inserts; `RemindersShape` and `ReminderPerDueAppointment` give their meaning |
| Clinic.RemindersAppend | app.py:97-99 | the rows for two consecutive batches are the rows for the first, then the rows for the second under the following ids |
| Clinic.RemindersShape | app.py:97-99 | the k-th inserted row is pending, sent at the run's time, refers to the k-th due appointment and takes the k-th fresh id |
| Clinic.CountRefAppend | app.py:97-99 | follow-up counts per appointment add up over concatenated rows |
| Clinic.NoReminderForUnknown | app.py:97-99 | a run inserts no follow-up for an id no appointment has |
| Clinic.ReminderPerDueAppointment | app.py:95-99 | one run inserts exactly one follow-up per appointment a day old and none for a newer one |
| Clinic.RerunDuplicates | app.py:94-101 | two runs insert one follow-up per run for every appointment due at that run; one due at the first run of two gets two, so the run is not idempotent |
| Clinic.BookedOnceAppend | app.py:78-80 | recording a booking of a label not booked yet keeps every label booked at most once |
| Clinic.BookingKeepsPool | app.py:78-81 | booking an open slot keeps the pool invariant: the label leaves the list, joins the booked labels, and is booked once |
| Clinic.BookedLabelGone | app.py:81 | after a booking the list holds every label it held before except the booked one |
| Clinic.NewAppointmentKeepsIds | app.py:79-80 | an appointment under the next fresh id keeps all ids unique |
| Clinic.NewFollowupsKeepIds | app.py:98-99 | follow-ups numbered from the next fresh id keep all ids unique |
| Clinic.NewReminders | app.py:97-99 | the insert loop produces exactly `Reminders` of the due rows: one pending row per due appointment, in order, under consecutive fresh ids |
| Clinic.Store.constructor | app.py:20-49 | process start: the tables as stored, the slot list seeded with the catalog, the invariant established |
| Clinic.Store.Book | app.py:79-83 | a booking appends exactly one appointment for the caller, slot and time, takes the label out of the list keeping the others in order, deletes the caller's step, and changes no follow-up |
| Clinic.Store.HandleMessage | app.py:53-89 | per branch: "hi" or no stored step resets to the greeting with the menu; greeting and "1" moves to choosing a slot and lists the current pool; choosing with an open label books it and names it; choosing with anything else changes nothing and says the slot is invalid; anything else changes nothing and gives the fallback. The pool only shrinks and the invariant holds |
| Clinic.Store.ScheduleFollowups | app.py:94-101 | the run appends one pending follow-up per appointment a day old, changes nothing else, returns how many it inserted, and every appointment gets exactly one new follow-up if due and none otherwise |

## Left out

- Flask routing, the form decoding, and the XML envelope that wraps the
  reply (`MessagingResponse`) are not modelled. The reply is the `Reply`
  value and `ReplyText` gives its wording. The maintenance endpoint's JSON
  body is represented by the returned count.
- SQL, the connection setup from environment variables, and table creation
  are not modelled. The tables are fields. `conn.commit()` becomes "the
  fields are updated when the method returns".
- The `selected_slot` column is never written by the source, so the state
  map holds only the step.
- `uuid.uuid4()` is replaced by a counter `nextId`. The model proves ids
  unique, which random UUIDs promise only with high probability.
- Clock: `created_at` comes from the database's `NOW()` and `reminder_sent`
  from the process's `datetime.now()`. The model uses one parameter `now` for
  both, so a skew between the two clocks is not modelled. Neither are time
  zones.
- A request without a `From` field makes the source fail on `None.split`.
  The model takes `from` as a string, so a missing field is outside it. A
  missing `Body` is the empty string, which the model covers like any other
  body.
- Text.Lower, Text.Upper: only ASCII letters change case. Python's Unicode
  case mapping (including mappings that change the length) is not modelled,
  and neither is non-ASCII whitespace beyond the `str.isspace()` set listed
  in `Text.IsSpace`.
- Concurrency: requests are handled one at a time. Two threads racing on the
  slot list or on the shared cursor are not modelled.
- Clinic.Due: the query has no `ORDER BY`, so the database may return rows
  in any order. The model uses table (insertion) order. The per-appointment
  counts proved in `ReminderPerDueAppointment` do not depend on that order.
- Clinic.Store.constructor: the slot list lives in process memory and is
  reseeded with the full catalog on every start while the tables persist.
  So the invariant "no label booked twice" covers the bookings since the
  last start (`session`). A label booked before a restart can be booked
  again after it, as in the source.
- Clinic.Store.ScheduleFollowups: the source inserts each row inside its
  loop and commits once at the end. The model builds the rows in a loop
  (`NewReminders`) and appends them in one step, which is what becomes
  visible at the commit.
- Clinic.RerunDuplicates: `schedule_followups` has no duplicate check and
  inserts again on every run (app.py:95-99). The model follows the code, and
  this lemma states the duplication.
