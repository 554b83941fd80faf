/**
 * The scheduling logic of the patient's appointment list
 * (`frontend/src/Pages/user/UserAppoienments.jsx`): the "is it now" test
 * that gates the chat button, the status badge, the date sort of a copy of the
 * booked list, pagination by six, and the small view state (current page, open
 * chat panel, draft message and chat history) with its transitions.
 */
module AppointmentList {
  import opened Wrappers
  import opened Calendar

  type Id = nat

  const ItemsPerPage: int := 6

  /** An entry of `BookedAppointments` as the list reads it. */
  datatype Appointment = Appointment(id: Id, doctorId: Id, date: Date, time: Time, status: string)

  // ---------------------------------------------------------------------
  // isAppointmentNow and the chat gate
  // ---------------------------------------------------------------------

  /** `isAppointmentNow`: `now` has the appointment's `toDateString` and its `getHours`. */
  predicate IsAppointmentNow(date: Date, time: Time, now: int) {
    var at := LocalInstant(date, time);
    DayOf(now) == DayOf(at) && HourOf(now) == HourOf(at)
  }

  /** The start of the clock hour in which the appointment begins. */
  function HourBucketStart(date: Date, time: Time): int {
    DayNumber(date) * DayMs + time.hour * HourMs
  }

  /** The test holds exactly during the clock hour the appointment starts in, not during the hour after its start. */
  lemma IsAppointmentNowIsHourBucket(date: Date, time: Time, now: int)
    ensures IsAppointmentNow(date, time, now)
            <==> HourBucketStart(date, time) <= now < HourBucketStart(date, time) + HourMs
  {
    LocalInstantDecodes(date, time);
    var q, r := now / DayMs, now % DayMs;
    assert now == q * DayMs + r && 0 <= r < DayMs;
    var h, x := r / HourMs, r % HourMs;
    assert r == h * HourMs + x && 0 <= x < HourMs && 0 <= h < 24;
    assert now == q * DayMs + h * HourMs + x;
    assert HourBucketStart(date, time) == DayNumber(date) * DayMs + time.hour * HourMs;
    if HourBucketStart(date, time) <= now < HourBucketStart(date, time) + HourMs {
      assert q == DayNumber(date);
    }
  }

  /** For a 10:00 appointment: live at 10:00, 10:30 and 10:59; not at 09:59, at 11:00, or at 10:00 on another day. */
  lemma TenOClockExamples(date: Date, other: Date)
    requires DayNumber(other) != DayNumber(date)
    ensures var ten := ClockTime(10, 0);
            && IsAppointmentNow(date, ten, LocalInstant(date, ClockTime(10, 0)))
            && IsAppointmentNow(date, ten, LocalInstant(date, ClockTime(10, 30)))
            && IsAppointmentNow(date, ten, LocalInstant(date, ClockTime(10, 59)))
            && !IsAppointmentNow(date, ten, LocalInstant(date, ClockTime(9, 59)))
            && !IsAppointmentNow(date, ten, LocalInstant(date, ClockTime(11, 0)))
            && !IsAppointmentNow(date, ten, LocalInstant(other, ClockTime(10, 0)))
  {
    LocalInstantDecodes(date, ClockTime(10, 0));
    LocalInstantDecodes(date, ClockTime(10, 30));
    LocalInstantDecodes(date, ClockTime(10, 59));
    LocalInstantDecodes(date, ClockTime(9, 59));
    LocalInstantDecodes(date, ClockTime(11, 0));
    LocalInstantDecodes(other, ClockTime(10, 0));
  }

  datatype ChatButton = Enabled | Disabled

  /** The chat control of one entry: enabled only while the appointment is now and confirmed. */
  function ChatButtonFor(a: Appointment, now: int): ChatButton {
    if IsAppointmentNow(a.date, a.time, now) && a.status == "confirmed" then Enabled else Disabled
  }

  /** A confirmed appointment's chat is enabled exactly during its starting clock hour; any other status never enables it. */
  lemma ChatEnabledWindow(a: Appointment, now: int)
    ensures a.status != "confirmed" ==> ChatButtonFor(a, now) == Disabled
    ensures a.status == "confirmed" ==>
      (ChatButtonFor(a, now) == Enabled
       <==> HourBucketStart(a.date, a.time) <= now < HourBucketStart(a.date, a.time) + HourMs)
  {
    IsAppointmentNowIsHourBucket(a.date, a.time, now);
  }

  // ---------------------------------------------------------------------
  // Status badge
  // ---------------------------------------------------------------------

  const ConfirmedClass: string := "bg-green-100 text-green-700 border-green-200"
  const PendingClass: string := "bg-orange-100 text-orange-700 border-orange-200"
  const CompletedClass: string := "bg-blue-100 text-blue-700 border-blue-200"
  const CancelledClass: string := "bg-red-100 text-red-700 border-red-200"
  const DefaultClass: string := "bg-gray-100 text-gray-700 border-gray-200"

  /** `getStatusColor`. */
  function StatusColor(status: string): string {
    if status == "confirmed" then ConfirmedClass
    else if status == "pending" then PendingClass
    else if status == "completed" then CompletedClass
    else if status == "cancelled" then CancelledClass
    else DefaultClass
  }

  predicate IsKnownStatus(status: string) {
    status == "confirmed" || status == "pending" || status == "completed" || status == "cancelled"
  }

  /** The four known statuses get four different classes, none of them gray; every other string gets gray. */
  lemma StatusColorsDistinct(s1: string, s2: string)
    ensures IsKnownStatus(s1) && IsKnownStatus(s2) ==> (StatusColor(s1) == StatusColor(s2) <==> s1 == s2)
    ensures IsKnownStatus(s1) <==> StatusColor(s1) != DefaultClass
  {
  }

  function UpperAscii(c: char): char {
    if 'a' <= c <= 'z' then (c as int - 32) as char else c
  }

  /** The badge text: the status with its first character upper-cased. */
  function StatusLabel(status: string): (badge: string)
    ensures |badge| == |status|
    ensures forall i :: 0 < i < |status| ==> badge[i] == status[i]
    ensures status != [] ==> !('a' <= badge[0] <= 'z') && UpperAscii(status[0]) == badge[0]
  {
    if status == [] then [] else [UpperAscii(status[0])] + status[1..]
  }

  // ---------------------------------------------------------------------
  // sortedAppointments
  // ---------------------------------------------------------------------

  /** The sort key: the entry's date as a day number. */
  function DateKey(a: Appointment): int {
    DayNumber(a.date)
  }

  predicate SortedBy<T>(s: seq<T>, key: T -> int) {
    forall i, j :: 0 <= i < j < |s| ==> key(s[i]) <= key(s[j])
  }

  /** Puts `x` into a list before its first entry whose key is not smaller than `x`'s. */
  function InsertBy<T>(x: T, s: seq<T>, key: T -> int): (r: seq<T>)
    ensures multiset(r) == multiset(s) + multiset{x}
  {
    if s == [] || key(x) <= key(s[0]) then [x] + s
    else
      assert s == [s[0]] + s[1..];
      [s[0]] + InsertBy(x, s[1..], key)
  }

  predicate NotBelow<T>(s: seq<T>, key: T -> int, lo: int) {
    forall i :: 0 <= i < |s| ==> lo <= key(s[i])
  }

  lemma {:induction false} InsertByNotBelow<T>(x: T, s: seq<T>, key: T -> int, lo: int)
    requires lo <= key(x) && NotBelow(s, key, lo)
    ensures NotBelow(InsertBy(x, s, key), key, lo)
  {
    if s != [] && key(s[0]) < key(x) {
      InsertByNotBelow(x, s[1..], key, lo);
    }
  }

  lemma {:induction false} InsertBySorted<T>(x: T, s: seq<T>, key: T -> int)
    requires SortedBy(s, key)
    ensures SortedBy(InsertBy(x, s, key), key)
  {
    if s != [] && key(s[0]) < key(x) {
      var rest := InsertBy(x, s[1..], key);
      InsertBySorted(x, s[1..], key);
      InsertByNotBelow(x, s[1..], key, key(s[0]));
      var r := [s[0]] + rest;
      forall i, j | 0 <= i < j < |r|
        ensures key(r[i]) <= key(r[j])
      {
        assert r[j] == rest[j - 1];
        if i > 0 {
          assert r[i] == rest[i - 1];
        }
      }
    }
  }

  /** Insertion sort by an integer key: a sorted rearrangement of the list. */
  function SortBy<T>(s: seq<T>, key: T -> int): (r: seq<T>)
    ensures SortedBy(r, key)
    ensures multiset(r) == multiset(s) && |r| == |s|
  {
    if s == [] then []
    else
      assert s == [s[0]] + s[1..];
      InsertBySorted(s[0], SortBy(s[1..], key), key);
      InsertBy(s[0], SortBy(s[1..], key), key)
  }

  /** The list sorted by date on a copy: a new list, in non-decreasing date order, holding the same entries. */
  function SortByDate(s: seq<Appointment>): (r: seq<Appointment>)
    ensures forall i, j :: 0 <= i < j < |r| ==> DayNumber(r[i].date) <= DayNumber(r[j].date)
    ensures multiset(r) == multiset(s) && |r| == |s|
  {
    SortBy(s, DateKey)
  }

  // ---------------------------------------------------------------------
  // Pagination
  // ---------------------------------------------------------------------

  /** The page count: `n` divided by the page size, rounded up. */
  function TotalPages(n: nat): (t: nat)
    ensures n <= t * ItemsPerPage
    ensures t > 0 ==> (t - 1) * ItemsPerPage < n
    ensures t == 0 <==> n == 0
  {
    (n + ItemsPerPage - 1) / ItemsPerPage
  }

  /** How `Array.prototype.slice` reads an index: negative counts from the end, then clamp to [0, len]. */
  function SliceIndex(i: int, len: nat): (r: nat)
    ensures r <= len
  {
    if i < 0 then (if len + i < 0 then 0 else len + i)
    else if i > len then len
    else i
  }

  function Slice<T>(s: seq<T>, start: int, end: int): seq<T> {
    var a, b := SliceIndex(start, |s|), SliceIndex(end, |s|);
    if a < b then s[a..b] else []
  }

  /** `paginatedAppointments` for page `p`. */
  function Page<T>(s: seq<T>, p: int): seq<T> {
    Slice(s, (p - 1) * ItemsPerPage, p * ItemsPerPage)
  }

  /** No page holds more than six entries, whatever the page number. */
  lemma PageAtMostSix<T>(s: seq<T>, p: int)
    ensures |Page(s, p)| <= ItemsPerPage
  {
    var a, b := SliceIndex((p - 1) * ItemsPerPage, |s|), SliceIndex(p * ItemsPerPage, |s|);
    assert a < b ==> b - a <= ItemsPerPage;
  }

  lemma PageEntriesComeFromList<T>(s: seq<T>, p: int)
    ensures forall a :: a in Page(s, p) ==> a in s
  {
    var a, b := SliceIndex((p - 1) * ItemsPerPage, |s|), SliceIndex(p * ItemsPerPage, |s|);
    if a < b {
      forall y | y in s[a..b] ensures y in s {
        var k :| 0 <= k < b - a && s[a..b][k] == y;
        assert s[a + k] == y;
      }
    }
  }

  /** Pages `p` to `last`, one after the other. */
  function PagesFrom<T>(s: seq<T>, p: int, last: int): seq<T>
    decreases last - p
  {
    if p > last then [] else Page(s, p) + PagesFrom(s, p + 1, last)
  }

  lemma {:induction false} PagesFromRest<T>(s: seq<T>, p: int)
    requires 1 <= p
    ensures var from := if (p - 1) * ItemsPerPage <= |s| then (p - 1) * ItemsPerPage else |s|;
            PagesFrom(s, p, TotalPages(|s|)) == s[from..]
    decreases TotalPages(|s|) - p
  {
    var t := TotalPages(|s|);
    if p <= t {
      PagesFromRest(s, p + 1);
      var a := (p - 1) * ItemsPerPage;
      var b := if p * ItemsPerPage <= |s| then p * ItemsPerPage else |s|;
      assert a < |s|;
      assert Page(s, p) == s[a..b];
      assert s[a..] == s[a..b] + s[b..];
    }
  }

  /** Pages 1 to `totalPages`, concatenated in order, give back the whole list. */
  lemma PagesCoverList<T>(s: seq<T>)
    ensures PagesFrom(s, 1, TotalPages(|s|)) == s
  {
    PagesFromRest(s, 1);
  }

  /** Every page but the last is full, the last is not empty, and a page past the last is empty. */
  lemma PageSizes<T>(s: seq<T>, p: int)
    ensures 1 <= p < TotalPages(|s|) ==> |Page(s, p)| == ItemsPerPage
    ensures 1 <= p <= TotalPages(|s|) ==> |Page(s, p)| >= 1
    ensures p > TotalPages(|s|) ==> Page(s, p) == []
  {
  }

  /** The Previous button: one page back, but never below page 1. */
  function PrevPage(p: int): int {
    if p - 1 < 1 then 1 else p - 1
  }

  /** The Next button: one page on, but never past the page count. */
  function NextPage(p: int, totalPages: int): int {
    if p + 1 < totalPages then p + 1 else totalPages
  }

  /** From a page in [1, totalPages] both buttons move by at most one and stay in range, stopping at the ends. */
  lemma PageStepsStayInRange(p: int, totalPages: int)
    requires 1 <= p <= totalPages
    ensures 1 <= PrevPage(p) <= totalPages && 1 <= NextPage(p, totalPages) <= totalPages
    ensures p - 1 <= PrevPage(p) <= p && p <= NextPage(p, totalPages) <= p + 1
    ensures PrevPage(p) == p <==> p == 1
    ensures NextPage(p, totalPages) == p <==> p == totalPages
  {
  }

  // ---------------------------------------------------------------------
  // Chat panel and chat history
  // ---------------------------------------------------------------------

  /** Pressing an entry's Chat: closes its panel if open, otherwise opens it (closing any other). */
  function ToggleChat(open: Option<Id>, id: Id): Option<Id> {
    if open == Some(id) then None else Some(id)
  }

  /** Pressing the same entry's Chat twice restores the panel when it was closed or already showed that entry ... */
  lemma ToggleChatTwice(open: Option<Id>, id: Id)
    requires open == None || open == Some(id)
    ensures ToggleChat(ToggleChat(open, id), id) == open
  {
  }

  /** ... but when another entry's panel was open, two presses leave every panel closed. */
  lemma ToggleChatTwiceFromOther(other: Id, id: Id)
    requires other != id
    ensures ToggleChat(Some(other), id) == Some(id)
    ensures ToggleChat(ToggleChat(Some(other), id), id) == None
  {
  }

  /** What `String.prototype.trim` strips: white space and line terminators. */
  predicate IsJsWhitespace(c: char) {
    c == '\t' || c == '\n' || c == '\U{000B}' || c == '\U{000C}' || c == '\r' || c == ' '
    || c == '\U{00A0}' || c == '\U{1680}' || ('\U{2000}' <= c <= '\U{200A}')
    || c == '\U{2028}' || c == '\U{2029}' || c == '\U{202F}' || c == '\U{205F}'
    || c == '\U{3000}' || c == '\U{FEFF}'
  }

  function TrimStart(s: string): string {
    if s != [] && IsJsWhitespace(s[0]) then TrimStart(s[1..]) else s
  }

  function TrimEnd(s: string): string {
    if s != [] && IsJsWhitespace(s[|s| - 1]) then TrimEnd(s[..|s| - 1]) else s
  }

  /** JavaScript's trim: white space removed at both ends. */
  function Trim(s: string): string {
    TrimEnd(TrimStart(s))
  }

  predicate IsBlank(s: string) {
    forall i :: 0 <= i < |s| ==> IsJsWhitespace(s[i])
  }

  lemma {:induction false} TrimStartEmptyIffBlank(s: string)
    ensures TrimStart(s) == [] <==> IsBlank(s)
    ensures TrimStart(s) != [] ==> !IsJsWhitespace(TrimStart(s)[0])
  {
    if s != [] && IsJsWhitespace(s[0]) {
      TrimStartEmptyIffBlank(s[1..]);
      assert IsBlank(s) <==> IsBlank(s[1..]) by {
        if IsBlank(s[1..]) {
          forall i | 0 <= i < |s| ensures IsJsWhitespace(s[i]) {
            if i > 0 { assert s[i] == s[1..][i - 1]; }
          }
        }
      }
    } else if s != [] {
      assert !IsBlank(s) by { assert !IsJsWhitespace(s[0]); }
    }
  }

  lemma {:induction false} TrimEndKeepsFirst(s: string)
    requires s != [] && !IsJsWhitespace(s[0])
    ensures TrimEnd(s) != [] && TrimEnd(s)[0] == s[0]
  {
    if IsJsWhitespace(s[|s| - 1]) {
      TrimEndKeepsFirst(s[..|s| - 1]);
    }
  }

  /** The send guard (the trimmed draft is empty) holds exactly when the draft is white space only. */
  lemma TrimEmptyIffBlank(s: string)
    ensures Trim(s) == [] <==> IsBlank(s)
  {
    TrimStartEmptyIffBlank(s);
    if TrimStart(s) != [] {
      TrimEndKeepsFirst(TrimStart(s));
    }
  }

  /** The history after appending `msg` to entry `id`'s list (an absent list counts as empty). */
  function Appended(history: map<Id, seq<string>>, id: Id, msg: string): (h: map<Id, seq<string>>)
    ensures h.Keys == history.Keys + {id}
    ensures h[id] == (if id in history then history[id] else []) + [msg]
    ensures forall k :: k in history && k != id ==> h[k] == history[k]
  {
    history[id := (if id in history then history[id] else []) + [msg]]
  }

  // ---------------------------------------------------------------------
  // The list's view state
  // ---------------------------------------------------------------------

  class ListView {
    var currentPage: int
    var chatOpen: Option<Id>
    var chatMessage: string
    var chatHistory: map<Id, seq<string>>

    constructor ()
      ensures currentPage == 1 && chatOpen == None && chatMessage == "" && chatHistory == map[]
    {
      currentPage, chatOpen, chatMessage, chatHistory := 1, None, "", map[];
    }

    /** `paginatedAppointments`: the current page of the date-sorted list. */
    function Paginated(booked: seq<Appointment>): (page: seq<Appointment>)
      reads this
      ensures |page| <= ItemsPerPage
      ensures forall a :: a in page ==> a in booked
    {
      var sorted := SortByDate(booked);
      PageAtMostSix(sorted, currentPage);
      PageEntriesComeFromList(sorted, currentPage);
      assert forall a :: a in sorted ==> a in multiset(booked);
      Page(sorted, currentPage)
    }

    method Previous()
      modifies this
      ensures currentPage == PrevPage(old(currentPage))
      ensures chatOpen == old(chatOpen) && chatMessage == old(chatMessage) && chatHistory == old(chatHistory)
    {
      currentPage := PrevPage(currentPage);
    }

    method Next(booked: seq<Appointment>)
      modifies this
      ensures currentPage == NextPage(old(currentPage), TotalPages(|booked|))
      ensures chatOpen == old(chatOpen) && chatMessage == old(chatMessage) && chatHistory == old(chatHistory)
    {
      var totalPages := TotalPages(|SortByDate(booked)|);
      currentPage := NextPage(currentPage, totalPages);
    }

    /** The Chat button's handler. */
    method HandleChat(id: Id)
      modifies this
      ensures chatOpen == ToggleChat(old(chatOpen), id) && chatMessage == ""
      ensures currentPage == old(currentPage) && chatHistory == old(chatHistory)
    {
      chatOpen := ToggleChat(chatOpen, id);
      chatMessage := "";
    }

    /** The input's `onChange`. */
    method EditMessage(text: string)
      modifies this
      ensures chatMessage == text
      ensures currentPage == old(currentPage) && chatOpen == old(chatOpen) && chatHistory == old(chatHistory)
    {
      chatMessage := text;
    }

    /** The Send button's handler: a white-space-only draft changes nothing; otherwise the draft, untrimmed, ends `id`'s list and is cleared. */
    method SendMessage(id: Id)
      modifies this
      ensures IsBlank(old(chatMessage)) ==>
        chatHistory == old(chatHistory) && chatMessage == old(chatMessage)
      ensures !IsBlank(old(chatMessage)) ==>
        chatHistory == Appended(old(chatHistory), id, old(chatMessage)) && chatMessage == ""
      ensures currentPage == old(currentPage) && chatOpen == old(chatOpen)
    {
      TrimEmptyIffBlank(chatMessage);
      if Trim(chatMessage) != [] {
        chatHistory := Appended(chatHistory, id, chatMessage);
        chatMessage := "";
      }
    }
  }
}
