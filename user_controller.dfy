/**
 * The user and booking handlers of the backend user controller
 * (`backend/Controllers/userController.js`).
 *
 * The Mongoose collections become the sequences of a `Database` object, kept in
 * their natural (insertion) order, so that `findOne` is "the first match".
 * Every handler is a run of early-return guards followed by at most one change
 * to one collection; a handler's reply is a status code with a message and,
 * on success, a payload.
 */
module UserController {
  import opened Wrappers
  import opened Calendar

  type Id = nat

  datatype User = User(
    id: Id,
    firstName: string,
    lastName: string,
    age: int,
    gender: string,
    email: string,
    password: Option<string>,
    role: string,
    phoneNo: string)

  datatype Doctor = Doctor(id: Id, firstName: string, lastName: string, specialization: string)

  datatype Appointment = Appointment(
    id: Id,
    userId: Id,
    doctorId: Id,
    date: Date,
    time: Time,
    chat: bool,
    endtime: int)

  /** What the duplicate check matches on: patient, doctor, date and time. */
  datatype BookingKey = BookingKey(userId: Id, doctorId: Id, date: Date, time: Time)

  /** The body of an update request; a field the client left out is `None` and keeps its stored value. */
  datatype UserUpdate = UserUpdate(
    firstName: Option<string>,
    lastName: Option<string>,
    age: Option<int>,
    gender: Option<string>,
    email: Option<string>,
    password: Option<string>,
    phoneNo: Option<string>)

  /** The record `getUser` answers with: the stored user without its password. */
  datatype UserView = UserView(
    userId: Id,
    firstName: string,
    lastName: string,
    age: int,
    gender: string,
    email: string,
    role: string,
    phoneNo: string)

  /** An HTTP reply: the status code, the `message` field (empty when the reply has none) and the payload. */
  datatype Reply<T> = Success(status: int, message: string, payload: T) | Failure(status: int, message: string)

  // ---------------------------------------------------------------------
  // Queries on the collections
  // ---------------------------------------------------------------------

  /** The first-match search of `findById` and `findOne`: the position of the first element satisfying `p`, if any. */
  function FirstIndex<T>(s: seq<T>, p: T -> bool): (r: Option<nat>)
    ensures r.Some? ==> r.value < |s| && p(s[r.value])
    ensures r.Some? ==> forall j :: 0 <= j < r.value ==> !p(s[j])
    ensures r.None? <==> forall j :: 0 <= j < |s| ==> !p(s[j])
  {
    if s == [] then None
    else if p(s[0]) then Some(0)
    else match FirstIndex(s[1..], p)
      case None => None
      case Some(i) => Some(i + 1)
  }

  /** `User.findById`: the position of the user with this id, if any. */
  function UserIndex(users: seq<User>, id: Id): (r: Option<nat>)
    ensures r.Some? ==> r.value < |users| && users[r.value].id == id
    ensures r.Some? ==> forall j :: 0 <= j < r.value ==> users[j].id != id
    ensures r.None? <==> forall j :: 0 <= j < |users| ==> users[j].id != id
  {
    FirstIndex(users, (u: User) => u.id == id)
  }

  /** The email lookup: the position of the first user holding this email, if any. */
  function EmailIndex(users: seq<User>, email: string): (r: Option<nat>)
    ensures r.Some? ==> r.value < |users| && users[r.value].email == email
    ensures r.Some? ==> forall j :: 0 <= j < r.value ==> users[j].email != email
    ensures r.None? <==> forall j :: 0 <= j < |users| ==> users[j].email != email
  {
    FirstIndex(users, (u: User) => u.email == email)
  }

  /** `Doctor.findById` finds a record. */
  predicate DoctorExists(doctors: seq<Doctor>, id: Id) {
    exists j :: 0 <= j < |doctors| && doctors[j].id == id
  }

  function KeyOf(a: Appointment): BookingKey {
    BookingKey(a.userId, a.doctorId, a.date, a.time)
  }

  /** The duplicate lookup finds an appointment with the same patient, doctor, date and time. */
  predicate AlreadyBooked(appointments: seq<Appointment>, k: BookingKey) {
    exists j :: 0 <= j < |appointments| && KeyOf(appointments[j]) == k
  }

  predicate UniqueUserIds(users: seq<User>) {
    forall i, j :: 0 <= i < j < |users| ==> users[i].id != users[j].id
  }

  /** Removing one user keeps the ids unique, and no remaining user has the removed user's id. */
  lemma RemovingUserKeepsIdsUnique(users: seq<User>, i: nat)
    requires UniqueUserIds(users) && i < |users|
    ensures UniqueUserIds(users[..i] + users[i + 1..])
    ensures forall u :: u in users[..i] + users[i + 1..] ==> u.id != users[i].id
  {
    var rest := users[..i] + users[i + 1..];
    forall j | 0 <= j < |rest|
      ensures rest[j] == users[if j < i then j else j + 1]
    {
    }
  }

  predicate EmailsUnique(users: seq<User>) {
    forall i, j :: 0 <= i < j < |users| ==> users[i].email != users[j].email
  }

  predicate UniqueAppointmentIds(appointments: seq<Appointment>) {
    forall i, j :: 0 <= i < j < |appointments| ==> appointments[i].id != appointments[j].id
  }

  /** No two stored appointments share patient, doctor, date and time. */
  predicate NoDuplicateBookings(appointments: seq<Appointment>) {
    forall i, j :: 0 <= i < j < |appointments| ==> KeyOf(appointments[i]) != KeyOf(appointments[j])
  }

  // ---------------------------------------------------------------------
  // BookAppointment: end time and rejection message
  // ---------------------------------------------------------------------

  /** The stored `endtime`: the start instant plus one hour plus the 5.5-hour clinic offset. */
  function EndTime(start: int): (end: int)
    ensures end == start + 6 * HourMs + 30 * MinuteMs
  {
    start + HourMs + ClinicOffsetMs
  }

  /**
   * Read on the same wall clock, the end time is 6 h 30 min after the booked
   * time: on the booked day, or on the next day when that passes midnight.
   */
  lemma EndTimeReadsBack(d: Date, t: Time)
    ensures var m := t.hour * 60 + t.minute + 390;
            var end := EndTime(LocalInstant(d, t));
            && DayOf(end) == DayNumber(d) + m / 1440
            && HourOf(end) == (m % 1440) / 60
            && MinuteOf(end) == m % 60
  {
    var m := t.hour * 60 + t.minute + 390;
    var k, r := DayNumber(d) + m / 1440, m % 1440;
    assert m == (m / 1440) * 1440 + r && r == (r / 60) * 60 + r % 60;
    assert EndTime(LocalInstant(d, t)) == k * DayMs + (r / 60) * HourMs + (r % 60) * MinuteMs;
    InstantParts(k, r / 60, r % 60);
  }

  const AlreadyBookedPrefix: string := "Appointment already booked for "

  /** The duplicate-booking message: the fixed prefix, the date, " and ", the time. */
  function AlreadyBookedMessage(date: Date, time: Time): string {
    AlreadyBookedPrefix + FormatDate(date) + " and " + FormatTime(time)
  }

  /** The rejection message names the requested date and time: both can be read back from it. */
  lemma AlreadyBookedMessageNamesSlot(date: Date, time: Time)
    ensures var m := AlreadyBookedMessage(date, time);
            |m| == 51 && ParseDate(m[31..41]) == Some(date) && ParseTime(m[46..]) == Some(time)
  {
    var m := AlreadyBookedMessage(date, time);
    assert m[31..41] == FormatDate(date);
    assert m[46..] == FormatTime(time);
    ParseFormatDate(date);
    ParseFormatTime(time);
  }

  /** Two requests are rejected with the same message only when they ask for the same date and time. */
  lemma AlreadyBookedMessageInjective(d1: Date, t1: Time, d2: Date, t2: Time)
    requires AlreadyBookedMessage(d1, t1) == AlreadyBookedMessage(d2, t2)
    ensures d1 == d2 && t1 == t2
  {
    AlreadyBookedMessageNamesSlot(d1, t1);
    AlreadyBookedMessageNamesSlot(d2, t2);
  }

  /** The duplicate check matches the patient too: another patient's booking of the same doctor, date and time does not block. */
  lemma OtherPatientIsNoDuplicate(appointments: seq<Appointment>, k: BookingKey, other: Id)
    requires other != k.userId
    requires forall j :: 0 <= j < |appointments| && appointments[j].doctorId == k.doctorId
               && appointments[j].date == k.date && appointments[j].time == k.time
               ==> appointments[j].userId == k.userId
    ensures !AlreadyBooked(appointments, k.(userId := other))
  {
  }

  // ---------------------------------------------------------------------
  // updateUser: the email guards and the merged record
  // ---------------------------------------------------------------------

  function Or<T>(o: Option<T>, default: T): T {
    match o
    case Some(v) => v
    case None => default
  }

  /** The request carries an email, and it is not the empty string. */
  predicate EmailGiven(upd: UserUpdate) {
    upd.email.Some? && upd.email.value != ""
  }

  /** The first user holding the email exists and is not the user being updated. */
  predicate EmailTakenByOther(users: seq<User>, email: string, id: Id) {
    match EmailIndex(users, email)
    case Some(j) => users[j].id != id
    case None => false
  }

  /** The record `findByIdAndUpdate` stores: the given fields replace the stored ones, the rest are kept. */
  function ApplyUpdate(u: User, upd: UserUpdate): User {
    u.(firstName := Or(upd.firstName, u.firstName),
       lastName := Or(upd.lastName, u.lastName),
       age := Or(upd.age, u.age),
       gender := Or(upd.gender, u.gender),
       email := Or(upd.email, u.email),
       password := if upd.password.Some? then upd.password else u.password,
       phoneNo := Or(upd.phoneNo, u.phoneNo))
  }

  /** With emails unique, the "Email already in use." guard fires exactly when another user holds the email. */
  lemma EmailTakenIffHeldByOther(users: seq<User>, email: string, id: Id)
    requires EmailsUnique(users)
    ensures EmailTakenByOther(users, email, id)
            <==> exists j :: 0 <= j < |users| && users[j].email == email && users[j].id != id
  {
    match EmailIndex(users, email)
    case None =>
    case Some(k) =>
      if exists j :: 0 <= j < |users| && users[j].email == email && users[j].id != id {
        var j :| 0 <= j < |users| && users[j].email == email && users[j].id != id;
        assert j == k;
      }
  }

  /** A user who sends back the email they already hold passes the guard, whoever else holds it later in the collection. */
  lemma KeepingOwnEmailPasses(users: seq<User>, i: nat)
    requires i < |users| && UniqueUserIds(users)
    requires forall j :: 0 <= j < i ==> users[j].email != users[i].email
    ensures !EmailTakenByOther(users, users[i].email, users[i].id)
  {
  }

  /** `getUser`'s projection. */
  function View(u: User): UserView {
    UserView(u.id, u.firstName, u.lastName, u.age, u.gender, u.email, u.role, u.phoneNo)
  }

  /** The projection shows everything but the password: it does not depend on the password and keeps the rest. */
  lemma ViewHidesOnlyPassword(u: User, v: User)
    ensures View(u) == View(v) <==> u.(password := v.password) == v
  {
  }

  function WithoutPassword(u: User): User {
    u.(password := None)
  }

  // ---------------------------------------------------------------------
  // The store and its handlers
  // ---------------------------------------------------------------------

  class Database {
    var users: seq<User>
    var doctors: seq<Doctor>
    var appointments: seq<Appointment>
    /** The id the next created appointment gets (the store generates ids). */
    var nextAppointmentId: nat

    ghost predicate Valid()
      reads this
    {
      && UniqueUserIds(users)
      && (forall i :: 0 <= i < |appointments| ==> appointments[i].id < nextAppointmentId)
      && UniqueAppointmentIds(appointments)
      && NoDuplicateBookings(appointments)
    }

    constructor (users0: seq<User>, doctors0: seq<Doctor>)
      requires UniqueUserIds(users0)
      ensures Valid()
      ensures users == users0 && doctors == doctors0 && appointments == []
    {
      users, doctors, appointments := users0, doctors0, [];
      nextAppointmentId := 0;
    }

    /** `BookAppointment`: user check, doctor check, duplicate check, then one create. */
    method BookAppointment(userId: Id, doctorId: Id, date: Date, time: Time) returns (reply: Reply<Appointment>)
      requires Valid()
      modifies this
      ensures Valid()
      ensures users == old(users) && doctors == old(doctors)
      ensures UserIndex(users, userId).None? ==>
        && reply == Failure(404, "User not found.")
        && appointments == old(appointments) && nextAppointmentId == old(nextAppointmentId)
      ensures UserIndex(users, userId).Some? && !DoctorExists(doctors, doctorId) ==>
        && reply == Failure(404, "Doctor not found.")
        && appointments == old(appointments) && nextAppointmentId == old(nextAppointmentId)
      ensures UserIndex(users, userId).Some? && DoctorExists(doctors, doctorId)
              && AlreadyBooked(old(appointments), BookingKey(userId, doctorId, date, time)) ==>
        && reply == Failure(400, AlreadyBookedMessage(date, time))
        && appointments == old(appointments) && nextAppointmentId == old(nextAppointmentId)
      ensures UserIndex(users, userId).Some? && DoctorExists(doctors, doctorId)
              && !AlreadyBooked(old(appointments), BookingKey(userId, doctorId, date, time)) ==>
        && reply.Success? && reply.status == 201 && reply.message == "Appointment booked successfully."
        && reply.payload.id == old(nextAppointmentId)
        && KeyOf(reply.payload) == BookingKey(userId, doctorId, date, time)
        && reply.payload.chat
        && reply.payload.endtime == EndTime(LocalInstant(date, time))
        && appointments == old(appointments) + [reply.payload]
      ensures reply.Success? <==> |appointments| == |old(appointments)| + 1
      ensures reply.Failure? <==> appointments == old(appointments)
    {
      if UserIndex(users, userId).None? {
        return Failure(404, "User not found.");
      }
      if !DoctorExists(doctors, doctorId) {
        return Failure(404, "Doctor not found.");
      }
      var k := BookingKey(userId, doctorId, date, time);
      if AlreadyBooked(appointments, k) {
        return Failure(400, AlreadyBookedMessage(date, time));
      }
      var endtime := EndTime(LocalInstant(date, time));
      var created := Appointment(nextAppointmentId, userId, doctorId, date, time, true, endtime);
      appointments := appointments + [created];
      nextAppointmentId := nextAppointmentId + 1;
      reply := Success(201, "Appointment booked successfully.", created);
    }

    /** `updateUser`: email required, email not held by another user, user must exist, then one replace. */
    method UpdateUser(userId: Id, upd: UserUpdate) returns (reply: Reply<User>)
      requires Valid()
      modifies this
      ensures Valid()
      ensures doctors == old(doctors) && appointments == old(appointments)
      ensures nextAppointmentId == old(nextAppointmentId)
      ensures !EmailGiven(upd) ==>
        reply == Failure(400, "Email is required.") && users == old(users)
      ensures EmailGiven(upd) && EmailTakenByOther(old(users), upd.email.value, userId) ==>
        reply == Failure(400, "Email already in use.") && users == old(users)
      ensures EmailGiven(upd) && !EmailTakenByOther(old(users), upd.email.value, userId)
              && UserIndex(old(users), userId).None? ==>
        reply == Failure(404, "User not found.") && users == old(users)
      ensures EmailGiven(upd) && !EmailTakenByOther(old(users), upd.email.value, userId)
              && UserIndex(old(users), userId).Some? ==>
        var i := UserIndex(old(users), userId).value;
        && users == old(users)[i := ApplyUpdate(old(users)[i], upd)]
        && reply == Success(200, "User updated successfully.", users[i])
      ensures EmailsUnique(old(users)) ==> EmailsUnique(users)
    {
      if !EmailGiven(upd) {
        return Failure(400, "Email is required.");
      }
      var email := upd.email.value;
      if EmailTakenByOther(users, email, userId) {
        return Failure(400, "Email already in use.");
      }
      var found := UserIndex(users, userId);
      if found.None? {
        return Failure(404, "User not found.");
      }
      var i := found.value;
      ghost var before := users;
      var updated := ApplyUpdate(users[i], upd);
      users := users[i := updated];
      reply := Success(200, "User updated successfully.", updated);
      if EmailsUnique(before) {
        forall j | 0 <= j < |before| && j != i
          ensures before[j].email != email
        {
          match EmailIndex(before, email)
          case None =>
          case Some(k) =>
            assert before[k].id == userId;
            assert k == i;
        }
      }
    }

    /** `deleteUser`: the user must exist, then one remove. */
    method DeleteUser(userId: Id) returns (reply: Reply<()>)
      requires Valid()
      modifies this
      ensures Valid()
      ensures doctors == old(doctors) && appointments == old(appointments)
      ensures nextAppointmentId == old(nextAppointmentId)
      ensures UserIndex(old(users), userId).None? ==>
        reply == Failure(404, "User not found.") && users == old(users)
      ensures UserIndex(old(users), userId).Some? ==>
        var i := UserIndex(old(users), userId).value;
        && users == old(users)[..i] + old(users)[i + 1..]
        && reply == Success(200, "User deleted successfully.", ())
      ensures UserIndex(users, userId).None?
      ensures forall u :: u in old(users) && u.id != userId ==> u in users
    {
      var found := UserIndex(users, userId);
      if found.None? {
        return Failure(404, "User not found.");
      }
      var i := found.value;
      RemovingUserKeepsIdsUnique(users, i);
      ghost var before := users;
      users := users[..i] + users[i + 1..];
      reply := Success(200, "User deleted successfully.", ());
      forall u | u in before && u.id != userId
        ensures u in users
      {
        var j :| 0 <= j < |before| && before[j] == u;
        assert users[if j < i then j else j - 1] == u;
      }
    }

    /** `getUser`: 404 for an unknown id, otherwise the user's projection. */
    method GetUser(userId: Id) returns (reply: Reply<UserView>)
      ensures UserIndex(users, userId).None? ==> reply == Failure(404, "User not found.")
      ensures UserIndex(users, userId).Some? ==>
        reply == Success(200, "", View(users[UserIndex(users, userId).value]))
    {
      var found := UserIndex(users, userId);
      if found.None? {
        return Failure(404, "User not found.");
      }
      reply := Success(200, "", View(users[found.value]));
    }

    /** `getAllUsers`: 404 on an empty collection, otherwise every user with its password cleared, in order. */
    method GetAllUsers() returns (reply: Reply<seq<User>>)
      ensures users == [] ==> reply == Failure(404, "No users found.")
      ensures users != [] ==> reply.Success? && reply.message == ""
      ensures reply.Success? ==>
        && reply.status == 200
        && |reply.payload| == |users|
        && forall i :: 0 <= i < |users| ==> reply.payload[i] == WithoutPassword(users[i])
    {
      var found := users;
      if |found| == 0 {
        return Failure(404, "No users found.");
      }
      var i := 0;
      while i < |found|
        invariant 0 <= i <= |found| == |users|
        invariant forall j :: 0 <= j < i ==> found[j] == WithoutPassword(users[j])
        invariant forall j :: i <= j < |found| ==> found[j] == users[j]
      {
        found := found[i := found[i].(password := None)];
        i := i + 1;
      }
      reply := Success(200, "", found);
    }
  }

  /** Every record `getAllUsers` returns has no password. */
  lemma AllUsersHidePasswords(users: seq<User>, payload: seq<User>)
    requires |payload| == |users|
    requires forall i :: 0 <= i < |users| ==> payload[i] == WithoutPassword(users[i])
    ensures forall i :: 0 <= i < |payload| ==> payload[i].password.None?
    ensures forall i :: 0 <= i < |payload| ==> payload[i].(password := users[i].password) == users[i]
  {
  }

  /**
   * Two patients may hold the same doctor, date and time; the same patient
   * asking again is turned away with 400 and nothing is written.
   */
  method SameSlotTwoPatients(d: Date, t: Time)
  {
    var u1 := User(1, "A", "B", 30, "f", "a@x", Some("p"), "user", "1");
    var u2 := User(2, "C", "D", 40, "m", "c@x", Some("q"), "user", "2");
    var db := new Database([u1, u2], [Doctor(7, "E", "F", "cardiology")]);
    assert db.doctors[0].id == 7;
    var r1 := db.BookAppointment(1, 7, d, t);
    assert r1.Success? && |db.appointments| == 1 && db.appointments[0].userId == 1;
    assert db.users[1].id == 2;
    var r2 := db.BookAppointment(2, 7, d, t);
    assert r2.Success? && |db.appointments| == 2;
    var r3 := db.BookAppointment(1, 7, d, t);
    assert KeyOf(db.appointments[0]) == BookingKey(1, 7, d, t);
    assert r3 == Failure(400, AlreadyBookedMessage(d, t)) && |db.appointments| == 2;
  }
}
