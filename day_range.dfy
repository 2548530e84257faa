/** The walk both range summaries share (`get_date_range_summary` in the
    desktop monitor and in the web API): every calendar day from the start
    date to the end date inclusive, one step of `timedelta(days=1)` at a time,
    keeping the days whose stored log loads and is truthy (`if log:`), and
    the `.get(key, default)` reads the summaries make on such a log. */
module DayRange {
  import opened Common
  import opened JsonCodec
  import opened Storage
  import opened Calendar

  /** The dates a Python `datetime` can hold: years 1 to 9999. */
  predicate InRange(d: Date)
  {
    Valid(d) && d.year <= 9999
  }

  /** `date(9999, 12, 31).toordinal()`, the last day a `datetime` holds. */
  const MaxOrdinal := 3652059

  lemma LastOrdinal()
    ensures Valid(Date(9999, 12, 31)) && Ordinal(Date(9999, 12, 31)) == MaxOrdinal
  {
    DaysBeforeYearFormula(9999);
  }

  /** A valid date up to the last representable day is in range. */
  lemma InRangeByOrdinal(d: Date)
    requires Valid(d) && Ordinal(d) <= MaxOrdinal
    ensures InRange(d)
  {
    LastOrdinal();
    OrdinalOrder(Date(9999, 12, 31), d);
  }

  /** An in-range date is no later than the last representable day. */
  lemma OrdinalInRange(d: Date)
    requires InRange(d)
    ensures Ordinal(d) <= MaxOrdinal
  {
    LastOrdinal();
    OrdinalOrder(d, Date(9999, 12, 31));
  }

  /** Dates are determined by their day numbers. */
  lemma SameDay(a: Date, b: Date)
    requires Valid(a) && Valid(b) && Ordinal(a) == Ordinal(b)
    ensures a == b
  {
    OrdinalOrder(a, b);
  }

  /** The date with day number `o` (`date.fromordinal(o)`): 1 January of
      year 1 stepped forward a day at a time. */
  function DateOf(o: int): (d: Date)
    requires 1 <= o <= MaxOrdinal
    ensures InRange(d) && Ordinal(d) == o
    decreases o
  {
    if o == 1 then Date(1, 1, 1)
    else
      var d := NextDay(DateOf(o - 1));
      InRangeByOrdinal(d);
      d
  }

  /** Every in-range date is the date of its day number. */
  lemma DateOfOrdinal(d: Date)
    requires InRange(d)
    ensures 1 <= Ordinal(d) <= MaxOrdinal && DateOf(Ordinal(d)) == d
  {
    OrdinalInRange(d);
    SameDay(DateOf(Ordinal(d)), d);
  }

  /** `load_date(date_str)` as the walks see it: the decoded record of a
      date, or None. The walks take it as a parameter; `Load` is the one the
      data directory gives. */
  type Loader = string -> Option<Json>

  /** `load_date` over the files of a data directory. */
  function Load(store: Store): Loader
  {
    date => LoadDate(store, date)
  }

  /** `current.strftime("%Y-%m-%d")` for the day numbered `o`. */
  function DayName(o: int): string
    requires 1 <= o <= MaxOrdinal
  {
    DateString(DateOf(o))
  }

  /** `load_date(date_str)` for the day numbered `o`. */
  function DayLog(load: Loader, o: int): Option<Json>
    requires 1 <= o <= MaxOrdinal
  {
    load(DayName(o))
  }

  /** `if log:`: the day numbered `o` exists and has a record that decodes
      to a truthy value. */
  predicate LoggedOn(load: Loader, o: int)
  {
    1 <= o <= MaxOrdinal && DayLog(load, o).Some? && Truthy(DayLog(load, o).value)
  }

  /** The record of a day that has one. */
  function LogOn(load: Loader, o: int): (v: Json)
    requires LoggedOn(load, o)
    ensures Truthy(v)
  {
    DayLog(load, o).value
  }

  /** The day numbers from `lo` up to but excluding `hi` that pass `has`, in
      the order `while current <= end_date` visits them. */
  function Steps(has: int -> bool, lo: int, hi: int): (r: seq<int>)
    ensures |r| <= if hi < lo then 0 else hi - lo
    decreases hi - lo
  {
    if hi <= lo then []
    else Steps(has, lo, hi - 1) + (if has(hi - 1) then [hi - 1] else [])
  }

  /** Every visited day lies in the range and passes `has`, and the days come
      in strictly increasing calendar order. */
  lemma {:induction false} StepsSound(has: int -> bool, lo: int, hi: int)
    ensures forall i :: 0 <= i < |Steps(has, lo, hi)| ==>
              lo <= Steps(has, lo, hi)[i] < hi && has(Steps(has, lo, hi)[i])
    ensures forall i, j :: 0 <= i < j < |Steps(has, lo, hi)| ==>
              Steps(has, lo, hi)[i] < Steps(has, lo, hi)[j]
    decreases hi - lo
  {
    if lo < hi {
      StepsSound(has, lo, hi - 1);
    }
  }

  /** No day of the range that passes `has` is skipped. */
  lemma {:induction false} StepsComplete(has: int -> bool, lo: int, hi: int, o: int)
    requires lo <= o < hi && has(o)
    ensures o in Steps(has, lo, hi)
    decreases hi - lo
  {
    if o < hi - 1 {
      StepsComplete(has, lo, hi - 1, o);
    }
  }

  /** Visiting `lo..hi` is visiting `lo..mid` and then `mid..hi`. */
  lemma {:induction false} StepsSplit(has: int -> bool, lo: int, mid: int, hi: int)
    requires lo <= mid <= hi
    ensures Steps(has, lo, hi) == Steps(has, lo, mid) + Steps(has, mid, hi)
    decreases hi - mid
  {
    if mid < hi {
      StepsSplit(has, lo, mid, hi - 1);
    }
  }

  // ---------------------------------------------------------------- reading a day

  /** `log.get(key, 0)` read as an integer counter: integers and booleans
      (a bool is an int in Python) give their value; anything else gives
      None. In the program a string, list, object or null makes the `+=`
      raise, while a decimal would add as a float: the integer totals here
      read a decimal counter as an error (`NumberField` reads it). */
  function IntField(ms: seq<Member>, key: string): (r: Option<int>)
    ensures Lookup(ms, key).None? ==> r == Some(0)
    ensures Lookup(ms, key).Some? && Lookup(ms, key).value.JInt? ==> r == Some(Lookup(ms, key).value.i)
  {
    match Lookup(ms, key)
    case None => Some(0)
    case Some(JInt(i)) => Some(i)
    case Some(JBool(b)) => Some(if b then 1 else 0)
    case Some(_) => None
  }

  /** `log.get(key, 0) / 3600`'s dividend as an exact number: integers,
      booleans and decimal fractions divide; any other stored value makes the
      division raise. */
  function NumberField(ms: seq<Member>, key: string): (r: Option<real>)
    ensures Lookup(ms, key).None? ==> r == Some(0.0)
    ensures Lookup(ms, key).Some? && Lookup(ms, key).value.JInt? ==> r == Some(Lookup(ms, key).value.i as real)
  {
    match Lookup(ms, key)
    case None => Some(0.0)
    case Some(JInt(i)) => Some(i as real)
    case Some(JBool(b)) => Some(if b then 1.0 else 0.0)
    case Some(JDec(d, k)) => Some(d as real / Pow10(k) as real)
    case Some(_) => None
  }

  /** The number of distinct keys of an object (`len` of the dict that
      `json.loads` builds, where a repeated key is kept once). */
  function KeyCount(ms: seq<Member>): (n: nat)
    ensures n <= |ms|
    ensures ms != [] ==> n >= 1
  {
    if ms == [] then 0
    else
      var init := ms[..|ms| - 1];
      KeyCount(init) + (if Lookup(init, ms[|ms| - 1].key).Some? then 0 else 1)
  }

  /** `len(log.get(key, []))`: the length of a stored list, string or
      object; any other stored value makes `len` raise. */
  function SizeField(ms: seq<Member>, key: string): (r: Option<nat>)
    ensures Lookup(ms, key).None? ==> r == Some(0)
    ensures Lookup(ms, key).Some? && Lookup(ms, key).value.JArr? ==> r == Some(|Lookup(ms, key).value.items|)
  {
    match Lookup(ms, key)
    case None => Some(0)
    case Some(JArr(items)) => Some(|items|)
    case Some(JStr(s)) => Some(|s|)
    case Some(JObj(members)) => Some(KeyCount(members))
    case Some(_) => None
  }

  // ---------------------------------------------------------------- walking the days

  /** What the loop body makes of one day: no truthy log (the day is
      skipped), a log it cannot read (Python raises), or the day's entry. */
  datatype Day<E> = NoLog | Unreadable | Read(entry: E)

  /** The days the loop does not skip. */
  function Visited<E>(read: int -> Day<E>): int -> bool
  {
    o => !read(o).NoLog?
  }

  /** The breakdown entries of the given days, in order, or None as soon as
      one day cannot be read. */
  function Entries<E>(read: int -> Day<E>, days: seq<int>): (r: Option<seq<E>>)
    ensures r.Some? ==> |r.value| == |days|
    ensures r.Some? ==> forall i :: 0 <= i < |days| ==> read(days[i]) == Read(r.value[i])
  {
    if days == [] then Some([])
    else
      var es :- Entries(read, days[..|days| - 1]);
      match read(days[|days| - 1])
      case Read(e) => Some(es + [e])
      case _ => None
  }

  /** Entries of two runs of days are the entries of each, or None when
      either run has an unreadable day. */
  lemma {:induction false} EntriesAppend<E>(read: int -> Day<E>, a: seq<int>, b: seq<int>)
    ensures Entries(read, a + b)
            == if Entries(read, a).Some? && Entries(read, b).Some?
               then Some(Entries(read, a).value + Entries(read, b).value) else None
  {
    if b == [] {
      assert a + b == a;
      assert Entries(read, b) == Some([]);
      if Entries(read, a).Some? {
        assert Entries(read, a).value + [] == Entries(read, a).value;
      }
    } else {
      var init := b[..|b| - 1];
      assert (a + b)[..|a + b| - 1] == a + init;
      assert (a + b)[|a + b| - 1] == b[|b| - 1];
      EntriesAppend(read, a, init);
      if Entries(read, a).Some? && Entries(read, init).Some? && read(b[|b| - 1]).Read? {
        var x, y, e := Entries(read, a).value, Entries(read, init).value, read(b[|b| - 1]).entry;
        assert x + y + [e] == x + (y + [e]);
      }
    }
  }

  /** Entries of one more day. */
  lemma EntriesSnoc<E>(read: int -> Day<E>, days: seq<int>, o: int)
    ensures Entries(read, days + [o])
            == if Entries(read, days).Some? && read(o).Read?
               then Some(Entries(read, days).value + [read(o).entry]) else None
  {
    assert (days + [o])[..|days|] == days;
  }

  /** The walk of the days numbered `lo` up to but excluding `hi`, a day at
      a time as the loop visits them: a skipped day adds nothing, a read day
      adds its entry, an unreadable day makes the walk fail. */
  function WalkFrom<E>(read: int -> Day<E>, lo: int, hi: int): Option<seq<E>>
    decreases hi - lo
  {
    if hi <= lo then Some([])
    else
      var es :- WalkFrom(read, lo, hi - 1);
      match read(hi - 1)
      case NoLog => Some(es)
      case Unreadable => None
      case Read(e) => Some(es + [e])
  }

  /** The days numbered `lo` to `last` walked, or None where Python raises
      (an unreadable day, or stepping past the last representable day after
      visiting it). */
  function Walked<E>(read: int -> Day<E>, lo: int, last: int): Option<seq<E>>
  {
    if lo <= last && last == MaxOrdinal then None
    else WalkFrom(read, lo, last + 1)
  }

  /** Visiting one more day: a skipped day changes nothing, an unreadable
      day ends the walk, a read day appends its entry. */
  lemma WalkStep<E>(read: int -> Day<E>, lo: int, o: int)
    requires lo <= o
    ensures Entries(read, Steps(Visited(read), lo, o + 1))
            == match read(o)
               case NoLog => Entries(read, Steps(Visited(read), lo, o))
               case Unreadable => None
               case Read(e) =>
                 if Entries(read, Steps(Visited(read), lo, o)).Some?
                 then Some(Entries(read, Steps(Visited(read), lo, o)).value + [e]) else None
  {
    var before := Steps(Visited(read), lo, o);
    assert Steps(Visited(read), lo, o + 1) == before + if read(o).NoLog? then [] else [o];
    EntriesSnoc(read, before, o);
    if read(o).NoLog? {
      assert before + [] == before;
    }
  }

  /** The walk is the entries of exactly the days it does not skip. */
  lemma {:induction false} WalkFromEntries<E>(read: int -> Day<E>, lo: int, hi: int)
    ensures WalkFrom(read, lo, hi) == Entries(read, Steps(Visited(read), lo, hi))
    decreases hi - lo
  {
    if lo < hi {
      WalkFromEntries(read, lo, hi - 1);
      WalkStep(read, lo, hi - 1);
    }
  }

  /** Once the walk up to `mid` fails, the walk up to any later `hi` fails. */
  lemma {:induction false} WalkFails<E>(read: int -> Day<E>, lo: int, mid: int, hi: int)
    requires mid <= hi && WalkFrom(read, lo, mid).None?
    ensures WalkFrom(read, lo, hi).None?
    decreases hi - mid
  {
    if mid < hi {
      WalkFails(read, lo, mid, hi - 1);
    }
  }

  /** Entries fail exactly when one of the days does not read. */
  lemma {:induction false} EntriesNone<E>(read: int -> Day<E>, days: seq<int>)
    ensures Entries(read, days).None? <==> exists i :: 0 <= i < |days| && !read(days[i]).Read?
  {
    if days != [] {
      var init := days[..|days| - 1];
      EntriesNone(read, init);
      if exists i :: 0 <= i < |init| && !read(init[i]).Read? {
        var i :| 0 <= i < |init| && !read(init[i]).Read?;
        assert days[i] == init[i];
      }
      if exists i :: 0 <= i < |days| && !read(days[i]).Read? {
        var i :| 0 <= i < |days| && !read(days[i]).Read?;
        if i < |init| {
          assert init[i] == days[i];
        }
      }
    }
  }

  /** Walking `lo..hi` is walking `lo..mid` and then `mid..hi`. */
  lemma WalkSplit<E>(read: int -> Day<E>, lo: int, mid: int, hi: int)
    requires lo <= mid <= hi
    ensures WalkFrom(read, lo, hi)
            == if WalkFrom(read, lo, mid).Some? && WalkFrom(read, mid, hi).Some?
               then Some(WalkFrom(read, lo, mid).value + WalkFrom(read, mid, hi).value) else None
  {
    var has := Visited(read);
    WalkFromEntries(read, lo, hi);
    WalkFromEntries(read, lo, mid);
    WalkFromEntries(read, mid, hi);
    StepsSplit(has, lo, mid, hi);
    EntriesAppend(read, Steps(has, lo, mid), Steps(has, mid, hi));
  }

  /** The walk of `lo..last` fails exactly when a day it does not skip
      cannot be read, or when it reaches the last representable day (stepping
      past it raises). */
  lemma WalkedNone<E>(read: int -> Day<E>, lo: int, last: int)
    ensures var days := Steps(Visited(read), lo, last + 1);
            Walked(read, lo, last).None? <==>
              (lo <= last == MaxOrdinal) || exists i :: 0 <= i < |days| && read(days[i]) == Unreadable
  {
    var days := Steps(Visited(read), lo, last + 1);
    WalkFromEntries(read, lo, last + 1);
    EntriesNone(read, days);
    StepsSound(Visited(read), lo, last + 1);
    forall i | 0 <= i < |days|
      ensures !read(days[i]).Read? <==> read(days[i]) == Unreadable
    {
      assert Visited(read)(days[i]);
    }
  }

  /** Distinct day numbers have names in the same order as text. */
  lemma DayNameOrder(a: int, b: int)
    requires 1 <= a < b <= MaxOrdinal
    ensures LexLess(DayName(a), DayName(b))
  {
    DateStringOrder(DateOf(a), DateOf(b));
  }

  /** A valid date no later than an in-range date is in range. */
  lemma StartInRange(today: Date, start: Date)
    requires InRange(today) && Valid(start) && Ordinal(start) <= Ordinal(today)
    ensures InRange(start)
  {
    OrdinalInRange(today);
    InRangeByOrdinal(start);
  }

  /** The walk of `lo..last` has at most one entry per day, and none when
      `lo` is after `last`. */
  lemma WalkedLength<E>(read: int -> Day<E>, lo: int, last: int)
    ensures Walked(read, lo, last).Some? ==>
              |Walked(read, lo, last).value| <= if last < lo then 0 else last - lo + 1
  {
    WalkFromEntries(read, lo, last + 1);
  }

  /** When `read` skips exactly the days without a truthy log, the days the
      walk keeps are exactly the days of the range with a truthy log, each
      once, in increasing order. */
  lemma LoggedSteps<E>(load: Loader, read: int -> Day<E>, lo: int, hi: int)
    requires forall o :: read(o).NoLog? <==> !LoggedOn(load, o)
    ensures forall i :: 0 <= i < |Steps(Visited(read), lo, hi)| ==>
              lo <= Steps(Visited(read), lo, hi)[i] < hi && LoggedOn(load, Steps(Visited(read), lo, hi)[i])
    ensures forall i, j :: 0 <= i < j < |Steps(Visited(read), lo, hi)| ==>
              Steps(Visited(read), lo, hi)[i] < Steps(Visited(read), lo, hi)[j]
    ensures forall o :: lo <= o < hi && LoggedOn(load, o) ==> o in Steps(Visited(read), lo, hi)
  {
    var has := Visited(read);
    var days := Steps(has, lo, hi);
    StepsSound(has, lo, hi);
    forall i | 0 <= i < |days|
      ensures LoggedOn(load, days[i])
    {
      assert has(days[i]);
    }
    forall o | lo <= o < hi && LoggedOn(load, o)
      ensures o in days
    {
      assert has(o);
      StepsComplete(has, lo, hi, o);
    }
  }

  /** A day of the range that reads has its entry in the walk. */
  lemma {:induction false} WalkContains<E>(read: int -> Day<E>, lo: int, hi: int, o: int)
    requires lo <= o < hi && read(o).Read? && WalkFrom(read, lo, hi).Some?
    ensures read(o).entry in WalkFrom(read, lo, hi).value
    decreases hi - lo
  {
    if o < hi - 1 {
      WalkContains(read, lo, hi - 1, o);
    }
  }
}
