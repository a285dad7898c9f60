/** The admin dashboard's derived views: the counts of today's and of later
    reservations, the list of reservations from yesterday on in (date, time)
    order, and the `tel:` link built from a stored phone number. */
module AdminDashboard {
  import opened Strings
  import opened FirebaseService
  import opened Collections
  import App

  // ---------------------------------------------------------------------
  // The two counters

  /** The filter of `todayResCount`: dated `day`. */
  function OnDay(day: string): Reservation -> bool {
    (r: Reservation) => r.date == day
  }

  /** The filter of `upcomingResCount`: dated after `day` in code order. */
  function LaterThan(day: string): Reservation -> bool {
    (r: Reservation) => StrLt(day, r.date)
  }

  /** Dated before `day`: what neither counter counts. */
  function EarlierThan(day: string): Reservation -> bool {
    (r: Reservation) => StrLt(r.date, day)
  }

  /** `todayResCount`. */
  function TodayResCount(rs: seq<Reservation>, todayIso: string): (n: nat)
    ensures n <= |rs|
    ensures n == 0 <==> forall r :: r in rs ==> r.date != todayIso
  {
    var kept := Filter(rs, OnDay(todayIso));
    FilterMembers(rs, OnDay(todayIso));
    assert kept != [] ==> kept[0] in kept;
    |kept|
  }

  /** `upcomingResCount`. */
  function UpcomingResCount(rs: seq<Reservation>, todayIso: string): (n: nat)
    ensures n <= |rs|
    ensures n == 0 <==> forall r :: r in rs ==> !StrLt(todayIso, r.date)
  {
    var kept := Filter(rs, LaterThan(todayIso));
    FilterMembers(rs, LaterThan(todayIso));
    assert kept != [] ==> kept[0] in kept;
    |kept|
  }

  /** Every reservation falls in exactly one of today, later and earlier, so
      the two counters never count the same reservation and, with the
      earlier ones, add up to the whole list. */
  lemma {:induction false} CountsPartition(rs: seq<Reservation>, todayIso: string)
    ensures TodayResCount(rs, todayIso) + UpcomingResCount(rs, todayIso) + |Filter(rs, EarlierThan(todayIso))| == |rs|
    ensures forall x :: !(x in Filter(rs, OnDay(todayIso)) && x in Filter(rs, LaterThan(todayIso)))
  {
    if rs != [] {
      var last := rs[|rs| - 1];
      CountsPartition(rs[..|rs| - 1], todayIso);
      StrLtTotal(last.date, todayIso);
      StrLtAsymmetric(last.date, todayIso);
      StrLtIrreflexive(todayIso);
    }
    FilterMembers(rs, OnDay(todayIso));
    FilterMembers(rs, LaterThan(todayIso));
    StrLtIrreflexive(todayIso);
  }

  // ---------------------------------------------------------------------
  // The reservation table

  /** The table's comparator says `a` goes first: an earlier date, or the
      same date and an earlier time (both in code order). */
  predicate KeyLt(a: Reservation, b: Reservation) {
    StrLt(a.date, b.date) || (a.date == b.date && StrLt(a.time, b.time))
  }

  /** No later entry belongs before an earlier one. */
  predicate SortedByDateTime(s: seq<Reservation>) {
    forall i, j :: 0 <= i < j < |s| ==> !KeyLt(s[j], s[i])
  }

  lemma KeyLtAsymmetric(a: Reservation, b: Reservation)
    ensures !(KeyLt(a, b) && KeyLt(b, a))
  {
    StrLtAsymmetric(a.date, b.date);
    StrLtAsymmetric(a.time, b.time);
    StrLtIrreflexive(a.date);
  }

  /** "Not after" is transitive. */
  lemma KeyNotLtTransitive(a: Reservation, b: Reservation, c: Reservation)
    requires !KeyLt(b, a) && !KeyLt(c, b)
    ensures !KeyLt(c, a)
  {
    StrLtTotal(a.date, b.date);
    StrLtTotal(b.date, c.date);
    StrLtTotal(a.time, b.time);
    StrLtTotal(b.time, c.time);
    if StrLt(c.date, a.date) {
      if StrLt(a.date, b.date) { StrLtTransitive(c.date, a.date, b.date); }
      if StrLt(b.date, c.date) { StrLtTransitive(b.date, c.date, a.date); }
      if a.date == b.date && StrLt(b.date, c.date) { StrLtAsymmetric(b.date, c.date); }
      if b.date == c.date && StrLt(a.date, b.date) { StrLtAsymmetric(a.date, b.date); }
    }
    if c.date == a.date && StrLt(c.time, a.time) {
      if StrLt(a.date, b.date) && StrLt(b.date, c.date) { StrLtTransitive(a.date, b.date, c.date); StrLtIrreflexive(a.date); }
      if StrLt(a.date, b.date) && b.date == c.date { StrLtIrreflexive(a.date); }
      if a.date == b.date && StrLt(b.date, c.date) { StrLtIrreflexive(a.date); }
      if a.date == b.date && b.date == c.date {
        if StrLt(a.time, b.time) { StrLtTransitive(c.time, a.time, b.time); }
        if StrLt(b.time, c.time) { StrLtTransitive(b.time, c.time, a.time); }
        if a.time == b.time && StrLt(b.time, c.time) { StrLtAsymmetric(b.time, c.time); }
        if b.time == c.time && StrLt(a.time, b.time) { StrLtAsymmetric(a.time, b.time); }
      }
    }
  }

  /** Insert `x` after every entry that does not belong after it: a stable
      insertion of a later input element into a sorted prefix. */
  function Insert(s: seq<Reservation>, x: Reservation): (r: seq<Reservation>)
    ensures |r| == |s| + 1
  {
    if s == [] || !KeyLt(x, s[|s| - 1]) then s + [x]
    else Insert(s[..|s| - 1], x) + [s[|s| - 1]]
  }

  lemma {:induction false} InsertPermutation(s: seq<Reservation>, x: Reservation)
    ensures multiset(Insert(s, x)) == multiset(s) + multiset{x}
  {
    if s != [] && KeyLt(x, s[|s| - 1]) {
      InsertPermutation(s[..|s| - 1], x);
      assert s == s[..|s| - 1] + [s[|s| - 1]];
    }
  }

  /** Appending an entry that belongs after every entry keeps the order. */
  lemma SnocSorted(a: seq<Reservation>, y: Reservation)
    requires SortedByDateTime(a)
    requires forall k :: 0 <= k < |a| ==> !KeyLt(y, a[k])
    ensures SortedByDateTime(a + [y])
  {
    var r := a + [y];
    forall i, j | 0 <= i < j < |r| ensures !KeyLt(r[j], r[i]) {
      if j < |a| {
        assert r[i] == a[i] && r[j] == a[j];
      }
    }
  }

  /** An entry that belongs after the last of a sorted sequence belongs
      after all of it. */
  lemma AfterLast(s: seq<Reservation>, x: Reservation)
    requires SortedByDateTime(s) && s != [] && !KeyLt(x, s[|s| - 1])
    ensures forall k :: 0 <= k < |s| ==> !KeyLt(x, s[k])
  {
    forall k | 0 <= k < |s| - 1 ensures !KeyLt(x, s[k]) {
      KeyNotLtTransitive(s[k], s[|s| - 1], x);
    }
  }

  /** What `last` belongs after, it still belongs after once `x` (which
      belongs before `last`) is inserted. */
  lemma AfterInsert(init: seq<Reservation>, x: Reservation, last: Reservation)
    requires forall k :: 0 <= k < |init| ==> !KeyLt(last, init[k])
    requires KeyLt(x, last)
    ensures forall k :: 0 <= k < |Insert(init, x)| ==> !KeyLt(last, Insert(init, x)[k])
  {
    var front := Insert(init, x);
    InsertPermutation(init, x);
    forall k | 0 <= k < |front| ensures !KeyLt(last, front[k]) {
      assert front[k] in multiset(front);
      if front[k] == x {
        KeyLtAsymmetric(x, last);
      } else {
        assert front[k] in multiset(init);
        var i :| 0 <= i < |init| && init[i] == front[k];
      }
    }
  }

  lemma {:induction false} InsertSorted(s: seq<Reservation>, x: Reservation)
    requires SortedByDateTime(s)
    ensures SortedByDateTime(Insert(s, x))
  {
    if s == [] {
      SnocSorted(s, x);
    } else if !KeyLt(x, s[|s| - 1]) {
      AfterLast(s, x);
      SnocSorted(s, x);
    } else {
      var init, last := s[..|s| - 1], s[|s| - 1];
      assert SortedByDateTime(init);
      InsertSorted(init, x);
      assert forall k :: 0 <= k < |init| ==> !KeyLt(last, init[k]) by {
        forall k | 0 <= k < |init| ensures !KeyLt(last, init[k]) {
          assert init[k] == s[k];
        }
      }
      AfterInsert(init, x, last);
      SnocSorted(Insert(init, x), last);
    }
  }

  /** `Array.prototype.sort` with the table's comparator, as a stable
      insertion sort. */
  function SortByDateTime(s: seq<Reservation>): (r: seq<Reservation>)
    ensures |r| == |s|
  {
    if s == [] then [] else Insert(SortByDateTime(s[..|s| - 1]), s[|s| - 1])
  }

  lemma {:induction false} SortByDateTimeCorrect(s: seq<Reservation>)
    ensures SortedByDateTime(SortByDateTime(s))
    ensures multiset(SortByDateTime(s)) == multiset(s)
  {
    if s != [] {
      var init, last := s[..|s| - 1], s[|s| - 1];
      SortByDateTimeCorrect(init);
      InsertSorted(SortByDateTime(init), last);
      InsertPermutation(SortByDateTime(init), last);
      assert s == init + [last];
    }
  }

  /** The filter of `sortedReservations`: not dated before `yesterdayIso`. */
  function NotBefore(yesterdayIso: string): Reservation -> bool {
    (r: Reservation) => !StrLt(r.date, yesterdayIso)
  }

  /** `sortedReservations`. */
  function SortedReservations(rs: seq<Reservation>, yesterdayIso: string): (r: seq<Reservation>)
    ensures |r| <= |rs|
    ensures forall x :: x in r <==> x in rs && !StrLt(x.date, yesterdayIso)
  {
    var kept := Filter(rs, NotBefore(yesterdayIso));
    FilterMembers(rs, NotBefore(yesterdayIso));
    SortKeepsMembers(kept);
    SortByDateTime(kept)
  }

  /** Sorting neither adds nor loses an element. */
  lemma SortKeepsMembers(s: seq<Reservation>)
    ensures forall x :: x in SortByDateTime(s) <==> x in s
  {
    SortByDateTimeCorrect(s);
    forall x ensures x in SortByDateTime(s) <==> x in s {
      assert x in SortByDateTime(s) <==> x in multiset(SortByDateTime(s));
      assert x in s <==> x in multiset(s);
    }
  }

  /** The table lists, in (date, time) order, every reservation dated
      yesterday or later exactly as often as the input holds it, and no
      other. */
  lemma SortedReservationsSpec(rs: seq<Reservation>, yesterdayIso: string, x: Reservation)
    ensures SortedByDateTime(SortedReservations(rs, yesterdayIso))
    ensures multiset(SortedReservations(rs, yesterdayIso))[x] == if StrLt(x.date, yesterdayIso) then 0 else multiset(rs)[x]
  {
    SortByDateTimeCorrect(Filter(rs, NotBefore(yesterdayIso)));
    FilterCount(rs, NotBefore(yesterdayIso), x);
  }

  // ---------------------------------------------------------------------
  // The phone link

  /** `formatTelLink`: an empty number gives an empty link; otherwise the
      digits are taken, the local mobile forms get the `+972` country code,
      a number already carrying it gets a `+`, and anything else stays as
      bare digits. */
  function FormatTelLink(phone: string): (r: string)
    ensures phone == "" ==> r == ""
    ensures r == StripNonDigits(phone) || (|r| > 1 && r[0] == '+' && AllDigits(r[1..]) && StartsWith(r[1..], "972"))
  {
    if phone == "" then ""
    else
      var cl := StripNonDigits(phone);
      if StartsWith(cl, "05") && |cl| == 10 then "+972" + cl[1..]
      else if StartsWith(cl, "5") && |cl| == 9 then "+972" + cl
      else if StartsWith(cl, "972") && |cl| >= 12 then "+" + cl
      else if StartsWith(cl, "+") then cl
      else cl
  }

  /** The `startsWith('+')` branch is dead: the cleaned string holds digits
      only. */
  lemma PlusBranchUnreachable(phone: string)
    ensures !StartsWith(StripNonDigits(phone), "+")
  {
    var cl := StripNonDigits(phone);
    if |cl| >= 1 {
      assert IsDigit(cl[0]);
    }
  }

  /** The four outcomes for a non-empty number, by the form of its digits:
      a local `05` mobile, a nine-digit `5` mobile, a number already carrying
      the `972` country code, and anything else, which links as bare digits. */
  lemma TelLinkCases(phone: string)
    requires phone != ""
    ensures var cl := StripNonDigits(phone);
      && (StartsWith(cl, "05") && |cl| == 10 ==> FormatTelLink(phone) == "+972" + cl[1..])
      && (StartsWith(cl, "5") && |cl| == 9 ==> FormatTelLink(phone) == "+972" + cl)
      && (StartsWith(cl, "972") && |cl| >= 12 ==> FormatTelLink(phone) == "+" + cl)
      && ((!(StartsWith(cl, "05") && |cl| == 10) && !(StartsWith(cl, "5") && |cl| == 9)
           && !(StartsWith(cl, "972") && |cl| >= 12)) ==> FormatTelLink(phone) == cl)
  {
    PlusBranchUnreachable(phone);
  }

  /** A number whose digits are a stored number `05XXXXXXXX`, with or
      without separators, becomes the global number `+9725XXXXXXXX` that
      section 5.1.4 of RFC 3966 asks of a `tel:` URI. */
  lemma TelLinkOfStored(p: string)
    requires App.IsStoredMobile(StripNonDigits(p))
    ensures FormatTelLink(p) == "+972" + StripNonDigits(p)[1..]
  {
    var cl := StripNonDigits(p);
    assert cl[..2] == "05";
  }

  /** The nine-digit form without the leading zero links to the same global
      number. */
  lemma TelLinkOfNineDigits(p: string)
    requires App.IsStoredMobile(p)
    ensures FormatTelLink(p[1..]) == FormatTelLink(p)
  {
    var q := p[1..];
    assert AllDigits(q) && StripNonDigits(q) == q;
    assert q[..1] == "5";
    assert !StartsWith(q, "05");
    TelLinkOfStored(p);
  }

  /** Every number the booking modal accepts and stores links to the global
      form of that stored number. */
  lemma TelLinkOfNormalized(input: string)
    requires App.NormalizePhone(input).Ok?
    ensures FormatTelLink(App.NormalizePhone(input).value) == "+972" + App.NormalizePhone(input).value[1..]
  {
    TelLinkOfStored(App.NormalizePhone(input).value);
  }

  /** Stripping a leading `+` from a digit string that restarts with `972`. */
  lemma StripPlusDigits(digits: string)
    requires AllDigits(digits)
    ensures StripNonDigits("+" + digits) == digits
  {
    StripNonDigitsAppend("+", digits);
    StripNoDigits("+");
  }

  /** A global number `+972…` of at least twelve digits is its own link. */
  lemma GlobalNumberFixed(digits: string)
    requires AllDigits(digits) && StartsWith(digits, "972") && |digits| >= 12
    ensures FormatTelLink("+" + digits) == "+" + digits
  {
    StripPlusDigits(digits);
    assert digits[0] == '9';
    assert !StartsWith(digits, "05") && !StartsWith(digits, "5");
  }

  /** `"972" + d` for the nine national digits `d` of the first two branches. */
  lemma CountryCodeDigits(d: string)
    requires AllDigits(d) && |d| == 9
    ensures AllDigits("972" + d) && StartsWith("972" + d, "972") && |"972" + d| == 12
    ensures "+972" + d == "+" + ("972" + d)
  {
    assert ("972" + d)[..3] == "972";
  }

  /** Formatting a link a second time changes nothing. */
  lemma TelLinkIdempotent(phone: string)
    ensures FormatTelLink(FormatTelLink(phone)) == FormatTelLink(phone)
  {
    if phone != "" {
      var cl := StripNonDigits(phone);
      if StartsWith(cl, "05") && |cl| == 10 {
        CountryCodeDigits(cl[1..]);
        GlobalNumberFixed("972" + cl[1..]);
      } else if StartsWith(cl, "5") && |cl| == 9 {
        CountryCodeDigits(cl);
        GlobalNumberFixed("972" + cl);
      } else if StartsWith(cl, "972") && |cl| >= 12 {
        GlobalNumberFixed(cl);
      } else {
        assert FormatTelLink(phone) == cl;
        assert StripNonDigits(cl) == cl;
      }
    }
  }
}
