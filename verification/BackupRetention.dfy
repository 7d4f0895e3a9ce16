/**
 Which backups are kept: the newest 14 days, the newest 8 Sundays and the newest 6 firsts
 of the month, applied again after every backup to what is left.

 A date is its ordinal in the Gregorian calendar.
 */
module BackupRetention {
  import opened Basics
  import opened Calendar

  // ---------- the policy, by rank ----------

  type Kind = Date -> bool

  const DAILY: Kind := (d: Date) => true
  const WEEKLY: Kind := (d: Date) => IsSunday(d)
  const MONTHLY: Kind := (d: Date) => IsFirst(d)

  // The dates of one kind that are newer than d.
  function Newer(s: set<Date>, kind: Kind, d: Date): set<Date> {
    set e | e in s && kind(e) && e > d
  }

  // The k newest dates of one kind.
  function Newest(s: set<Date>, kind: Kind, k: nat): set<Date> {
    set d | d in s && kind(d) && |Newer(s, kind, d)| < k
  }

  function Keep(s: set<Date>): set<Date> {
    Newest(s, DAILY, 14) + Newest(s, WEEKLY, 8) + Newest(s, MONTHLY, 6)
  }

  // ---------- counting ----------

  function OfKind(s: set<Date>, kind: Kind): set<Date> {
    set d | d in s && kind(d)
  }

  lemma {:induction false} Oldest(s: set<Date>) returns (m: Date)
    requires s != {}
    ensures m in s && forall d :: d in s ==> m <= d
  {
    m := Member(s);
    if s != {m} {
      var n := Oldest(s - {m});
      assert forall d :: d in s && d != m ==> d in s - {m};
      if n < m { m := n; }
    }
  }

  // There are k newest dates, or all of them.
  lemma {:induction false} NewestSize(s: set<Date>, kind: Kind, k: nat)
    ensures |Newest(s, kind, k)| == if |OfKind(s, kind)| < k then |OfKind(s, kind)| else k
    decreases |OfKind(s, kind)|
  {
    var all, top := OfKind(s, kind), Newest(s, kind, k);
    if all == {} {
      assert top == {};
    } else {
      var m := Oldest(all);
      var rest := s - {m};
      assert OfKind(rest, kind) == all - {m};
      NewestSize(rest, kind, k);
      assert Newer(s, kind, m) == all - {m};
      forall d | d in rest && kind(d) ensures Newer(s, kind, d) == Newer(rest, kind, d) {
        assert m in Newer(s, kind, d) ==> m > d && d in all;
      }
      if |all| <= k {
        assert top == Newest(rest, kind, k) + {m};
      } else {
        assert top == Newest(rest, kind, k);
      }
    }
  }

  // Above a date with at least k newer ones, the k newest are found.
  lemma {:induction false} NewestAbove(s: set<Date>, kind: Kind, k: nat, d: Date)
    requires |Newer(s, kind, d)| >= k
    ensures |Newest(s, kind, k) * Newer(s, kind, d)| >= k
  {
    var above := Newer(s, kind, d);
    assert OfKind(above, kind) == above;
    NewestSize(above, kind, k);
    forall e | e in Newest(above, kind, k) ensures e in Newest(s, kind, k) {
      assert Newer(above, kind, e) == Newer(s, kind, e);
    }
    SubsetSize(Newest(above, kind, k), Newest(s, kind, k) * above);
  }

  // ---------- pruning again ----------

  // Dropping dates that are not among the k newest of h changes nothing for h and anything new.
  lemma {:induction false} NewestStable(h: set<Date>, kept: set<Date>, n: set<Date>, kind: Kind, k: nat)
    requires Newest(h, kind, k) <= kept <= h
    ensures Newest(h + n, kind, k) == Newest(kept + n, kind, k)
  {
    var a, b := h + n, kept + n;
    forall d | d in Newest(a, kind, k) ensures d in Newest(b, kind, k) {
      SubsetSize(Newer(h, kind, d), Newer(a, kind, d));
      SubsetSize(Newer(b, kind, d), Newer(a, kind, d));
      assert d in h ==> d in Newest(h, kind, k);
    }
    forall d | d in Newest(b, kind, k) ensures d in Newest(a, kind, k) {
      if |Newer(a, kind, d)| >= k {
        NewestAbove(a, kind, k, d);
        SubsetSize(Newest(a, kind, k) * Newer(a, kind, d), Newer(b, kind, d));
      }
    }
  }

  // Pruning the history before adding new dates makes no difference to what is kept.
  lemma {:induction false} KeepOfKept(h: set<Date>, n: set<Date>)
    ensures Keep(h + n) == Keep(Keep(h) + n)
  {
    NewestStable(h, Keep(h), n, DAILY, 14);
    NewestStable(h, Keep(h), n, WEEKLY, 8);
    NewestStable(h, Keep(h), n, MONTHLY, 6);
  }

  lemma {:induction false} KeepTwice(h: set<Date>)
    ensures Keep(Keep(h)) == Keep(h)
  {
    KeepOfKept(h, {});
    assert h + {} == h && Keep(h) + {} == Keep(h);
  }

  // A date pruned once is never wanted again.
  lemma {:induction false} PrunedForGood(h: set<Date>, n: set<Date>, d: Date)
    requires d in h && d !in Keep(h)
    ensures d !in Keep(h + n)
  {
    SubsetSize(Newer(h, DAILY, d), Newer(h + n, DAILY, d));
    SubsetSize(Newer(h, WEEKLY, d), Newer(h + n, WEEKLY, d));
    SubsetSize(Newer(h, MONTHLY, d), Newer(h + n, MONTHLY, d));
  }

  // ---------- computing the policy ----------

  predicate Descending(s: seq<Date>) {
    forall i, j :: 0 <= i < j < |s| ==> s[i] > s[j]
  }

  function Elements(s: seq<Date>): set<Date> {
    set d | d in s
  }

  // sorted(set(dates), reverse=True)
  function SortedUnique(dates: seq<Date>): (s: seq<Date>)
    ensures Descending(s) && Elements(s) == Elements(dates)
  {
    if dates == [] then []
    else
      var n := |dates| - 1;
      assert dates == dates[..n] + [dates[n]];
      var before := SortedUnique(dates[..n]);
      assert forall d :: (d in before <==> d in Elements(before)) && (d in dates[..n] <==> d in Elements(dates[..n]));
      Insert(before, dates[n])
  }

  lemma {:induction false} DescendingCons(d: Date, s: seq<Date>)
    requires Descending(s) && forall e :: e in s ==> e < d
    ensures Descending([d] + s)
  {
    forall i | 0 <= i < |s| ensures s[i] < d {
      assert s[i] in s;
    }
  }

  function Insert(s: seq<Date>, d: Date): (t: seq<Date>)
    requires Descending(s)
    ensures Descending(t)
    ensures forall e :: e in t <==> e in s || e == d
  {
    if s == [] || d > s[0] then DescendingCons(d, s); [d] + s
    else if d == s[0] then s
    else
      var u := Insert(s[1..], d);
      assert s == [s[0]] + s[1..];
      DescendingCons(s[0], u);
      [s[0]] + u
  }

  function Select(s: seq<Date>, kind: Kind): seq<Date> {
    if s == [] then []
    else Select(s[..|s| - 1], kind) + if kind(s[|s| - 1]) then [s[|s| - 1]] else []
  }

  function Take(s: seq<Date>, k: nat): seq<Date> {
    if |s| <= k then s else s[..k]
  }

  lemma {:induction false} SelectMembers(s: seq<Date>, kind: Kind)
    ensures forall d :: d in Select(s, kind) <==> d in s && kind(d)
  {
    if s != [] {
      var n := |s| - 1;
      SelectMembers(s[..n], kind);
      assert s == s[..n] + [s[n]];
    }
  }

  lemma {:induction false} SelectDescending(s: seq<Date>, kind: Kind)
    requires Descending(s)
    ensures Descending(Select(s, kind))
  {
    if s != [] {
      var n := |s| - 1;
      SelectDescending(s[..n], kind);
      SelectMembers(s[..n], kind);
      var r := Select(s[..n], kind);
      forall i | 0 <= i < |r| ensures r[i] > s[n] {
        assert r[i] in r && r[i] in s[..n];
      }
    }
  }

  lemma {:induction false} SelectFacts(s: seq<Date>, kind: Kind)
    requires Descending(s)
    ensures Descending(Select(s, kind)) && Elements(Select(s, kind)) == OfKind(Elements(s), kind)
  {
    SelectDescending(s, kind);
    SelectMembers(s, kind);
    forall d ensures d in Elements(Select(s, kind)) <==> d in OfKind(Elements(s), kind) {
      assert d in Elements(Select(s, kind)) <==> d in Select(s, kind);
      assert d in Elements(s) <==> d in s;
    }
  }

  lemma {:induction false} ElementsSize(s: seq<Date>)
    requires Descending(s)
    ensures |Elements(s)| == |s|
  {
    if s != [] {
      var n := |s| - 1;
      ElementsSize(s[..n]);
      assert Elements(s) == Elements(s[..n]) + {s[n]};
      assert s[n] !in Elements(s[..n]);
    }
  }

  // The first k of a descending list are its k newest.
  lemma {:induction false} TakeIsNewest(s: seq<Date>, all: set<Date>, kind: Kind, k: nat)
    requires Descending(s) && Elements(s) == OfKind(all, kind)
    ensures Elements(Take(s, k)) == Newest(all, kind, k)
  {
    forall i | 0 <= i < |s| ensures |Newer(all, kind, s[i])| == i {
      assert Newer(all, kind, s[i]) == Elements(s[..i]) by {
        forall e ensures e in Newer(all, kind, s[i]) <==> e in Elements(s[..i]) {
          if e in Newer(all, kind, s[i]) {
            assert e in Elements(s);
            var j :| 0 <= j < |s| && s[j] == e;
            assert s[..i][j] == e;
          }
          if e in Elements(s[..i]) {
            var j :| 0 <= j < i && s[..i][j] == e;
            assert s[j] in Elements(s);
          }
        }
      }
      ElementsSize(s[..i]);
    }
    forall d ensures d in Elements(Take(s, k)) <==> d in Newest(all, kind, k) {
      if d in Elements(Take(s, k)) {
        var i :| 0 <= i < |Take(s, k)| && Take(s, k)[i] == d;
        assert s[i] == d && s[i] in Elements(s);
      }
      if d in Newest(all, kind, k) {
        assert d in Elements(s);
        var i :| 0 <= i < |s| && s[i] == d;
        assert Take(s, k)[i] == d;
      }
    }
  }

  method ComputeKeepSet(dates: seq<Date>) returns (keep: set<Date>)
    ensures keep == Keep(Elements(dates))
  {
    var unique := SortedUnique(dates);
    keep := {};
    if unique == [] {
      assert Elements(dates) == {};
      return;
    }
    BucketsAreNewest(unique, Elements(dates));
    keep := keep + Elements(Take(unique, 14));
    var sundays := Select(unique, WEEKLY);
    keep := keep + Elements(Take(sundays, 8));
    var firsts := Select(unique, MONTHLY);
    keep := keep + Elements(Take(firsts, 6));
    assert keep == Keep(Elements(dates));
    keep := keep + {unique[0]};
  }

  // The three slices are the three buckets, and the first of them has the newest date.
  lemma {:induction false} BucketsAreNewest(unique: seq<Date>, all: set<Date>)
    requires Descending(unique) && Elements(unique) == all && unique != []
    ensures Elements(Take(unique, 14)) == Newest(all, DAILY, 14) && unique[0] in Elements(Take(unique, 14))
    ensures Elements(Take(Select(unique, WEEKLY), 8)) == Newest(all, WEEKLY, 8)
    ensures Elements(Take(Select(unique, MONTHLY), 6)) == Newest(all, MONTHLY, 6)
  {
    assert OfKind(all, DAILY) == all;
    TakeIsNewest(unique, all, DAILY, 14);
    SelectFacts(unique, WEEKLY);
    TakeIsNewest(Select(unique, WEEKLY), all, WEEKLY, 8);
    SelectFacts(unique, MONTHLY);
    TakeIsNewest(Select(unique, MONTHLY), all, MONTHLY, 6);
    assert Take(unique, 14)[0] == unique[0];
  }

  // ---------- the directory over time ----------

  datatype File = File(date: Date, name: string)

  function Dates(files: set<File>): set<Date> {
    set f | f in files :: f.date
  }

  function Pruned(files: set<File>): set<File> {
    set f | f in files && f.date in Keep(Dates(files))
  }

  datatype Op = Add(file: File) | Prune

  function Apply(files: set<File>, op: Op): set<File> {
    match op case Add(f) => files + {f} case Prune => Pruned(files)
  }

  function Disk(ops: seq<Op>): set<File> {
    if ops == [] then {} else Apply(Disk(ops[..|ops| - 1]), ops[|ops| - 1])
  }

  function Made(ops: seq<Op>): set<File> {
    if ops == [] then {}
    else Made(ops[..|ops| - 1]) + match ops[|ops| - 1] case Add(f) => {f} case Prune => {}
  }

  lemma {:induction false} AddHoldsWanted(disk: set<File>, made: set<File>, f: File)
    requires forall g :: g in made && g.date in Keep(Dates(made)) ==> g in disk
    requires Keep(Dates(disk)) == Keep(Dates(made))
    ensures forall g :: g in made + {f} && g.date in Keep(Dates(made + {f})) ==> g in disk + {f}
    ensures Keep(Dates(disk + {f})) == Keep(Dates(made + {f}))
  {
    assert Dates(disk + {f}) == Dates(disk) + {f.date} && Dates(made + {f}) == Dates(made) + {f.date};
    KeepOfKept(Dates(disk), {f.date});
    KeepOfKept(Dates(made), {f.date});
    forall g | g in made + {f} && g.date in Keep(Dates(made) + {f.date}) ensures g in disk + {f} {
      if g != f && g.date !in Keep(Dates(made)) {
        PrunedForGood(Dates(made), {f.date}, g.date);
      }
    }
  }

  lemma {:induction false} PrunedDates(disk: set<File>)
    ensures Dates(Pruned(disk)) == Keep(Dates(disk))
  {
    forall d | d in Keep(Dates(disk)) ensures d in Dates(Pruned(disk)) {
      var f :| f in disk && f.date == d;
      assert f in Pruned(disk);
    }
  }

  // What is on disk suffices to decide as if nothing had ever been removed: it holds every
  // file ever made whose date is still wanted.
  lemma {:induction false} DiskHoldsWanted(ops: seq<Op>)
    ensures Disk(ops) <= Made(ops)
    ensures forall f :: f in Made(ops) && f.date in Keep(Dates(Made(ops))) ==> f in Disk(ops)
    ensures Keep(Dates(Disk(ops))) == Keep(Dates(Made(ops)))
  {
    if ops != [] {
      var before, op := ops[..|ops| - 1], ops[|ops| - 1];
      DiskHoldsWanted(before);
      var disk, made := Disk(before), Made(before);
      match op
      case Add(f) =>
        AddHoldsWanted(disk, made, f);
      case Prune =>
        assert made + {} == made;
        PrunedDates(disk);
        KeepTwice(Dates(disk));
    }
  }

  // After a prune, the disk holds exactly the files ever made whose date the policy keeps
  // out of all dates ever seen.
  lemma {:induction false} DiskAfterPrune(ops: seq<Op>)
    requires ops != [] && ops[|ops| - 1] == Prune
    ensures Disk(ops) == set f | f in Made(ops) && f.date in Keep(Dates(Made(ops)))
  {
    var before := ops[..|ops| - 1];
    DiskHoldsWanted(before);
    assert Made(ops) == Made(before);
    assert Disk(ops) == Pruned(Disk(before));
  }

  function FileSet(files: seq<File>): set<File> {
    set f | f in files
  }

  // files_to_delete: the names, in listing order, of the files whose date is not kept.
  function NamesWithout(files: seq<File>, keep: set<Date>): seq<string> {
    if files == [] then []
    else NamesWithout(files[..|files| - 1], keep)
         + if files[|files| - 1].date in keep then [] else [files[|files| - 1].name]
  }

  class BackupDirectory {
    var files: seq<File>

    constructor ()
      ensures files == []
    {
      files := [];
    }

    method AddBackup(f: File)
      modifies this
      ensures files == old(files) + [f] && FileSet(files) == Apply(FileSet(old(files)), Add(f))
    {
      files := files + [f];
    }

    method FilesToDelete() returns (names: seq<string>)
      ensures names == NamesWithout(files, Keep(Dates(FileSet(files))))
    {
      var dates := seq(|files|, i requires 0 <= i < |files| reads this => files[i].date);
      var keep := ComputeKeepSet(dates);
      assert Elements(dates) == Dates(FileSet(files)) by {
        forall f | f in files ensures f.date in Elements(dates) {
          var i :| 0 <= i < |files| && files[i] == f;
          assert dates[i] == f.date;
        }
        forall i | 0 <= i < |dates| ensures dates[i] in Dates(FileSet(files)) {
          assert files[i] in FileSet(files);
        }
      }
      names := [];
      for i := 0 to |files|
        invariant names == NamesWithout(files[..i], keep)
      {
        assert files[..i + 1][..i] == files[..i];
        if files[i].date !in keep {
          names := names + [files[i].name];
        }
      }
      assert files[..|files|] == files;
    }

    // Deleting by name removes exactly the files of dates that are not kept, as long as a
    // name belongs to one date.
    method PruneDirectory()
      requires forall f, g :: f in files && g in files && f.name == g.name ==> f.date == g.date
      modifies this
      ensures FileSet(files) == Apply(FileSet(old(files)), Prune)
    {
      var names := FilesToDelete();
      var left: seq<File> := [];
      for i := 0 to |files|
        invariant left == Unnamed(files[..i], names)
      {
        assert files[..i + 1][..i] == files[..i];
        if files[i].name !in names {
          left := left + [files[i]];
        }
      }
      assert files[..|files|] == files;
      UnnamedIsPruned(files, Keep(Dates(FileSet(files))));
      files := left;
    }
  }

  // The files whose name is not on the list.
  function Unnamed(files: seq<File>, names: seq<string>): seq<File> {
    if files == [] then []
    else Unnamed(files[..|files| - 1], names)
         + if files[|files| - 1].name !in names then [files[|files| - 1]] else []
  }

  lemma {:induction false} UnnamedAre(files: seq<File>, names: seq<string>)
    ensures forall f :: f in Unnamed(files, names) <==> f in files && f.name !in names
  {
    if files != [] {
      var n := |files| - 1;
      UnnamedAre(files[..n], names);
      assert files == files[..n] + [files[n]];
    }
  }

  lemma {:induction false} UnnamedIsPruned(files: seq<File>, keep: set<Date>)
    requires forall f, g :: f in files && g in files && f.name == g.name ==> f.date == g.date
    ensures FileSet(Unnamed(files, NamesWithout(files, keep))) == set f | f in FileSet(files) && f.date in keep
  {
    var names := NamesWithout(files, keep);
    UnnamedAre(files, names);
    NamesAre(files, keep);
  }

  lemma {:induction false} NamesAre(files: seq<File>, keep: set<Date>)
    ensures forall name :: name in NamesWithout(files, keep) <==>
              exists f :: f in files && f.name == name && f.date !in keep
  {
    if files != [] {
      var n := |files| - 1;
      NamesAre(files[..n], keep);
      assert files == files[..n] + [files[n]];
      forall name ensures name in NamesWithout(files, keep) <==> exists f :: f in files && f.name == name
                                                                             && f.date !in keep {
        if name in NamesWithout(files, keep) && name !in NamesWithout(files[..n], keep) {
          assert files[n].name == name;
        }
      }
    }
  }

  // ---------- how much is kept ----------

  // At most 28 dates, at least 14 unless there are fewer; and always the newest, so adding it
  // explicitly changes nothing.
  lemma {:induction false} KeepBounds(h: set<Date>)
    ensures (if |h| < 14 then |h| else 14) <= |Keep(h)| <= 28
    ensures h != {} ==> exists d :: d in Keep(h) && forall e :: e in h ==> e <= d
  {
    assert OfKind(h, DAILY) == h;
    NewestSize(h, DAILY, 14);
    NewestSize(h, WEEKLY, 8);
    NewestSize(h, MONTHLY, 6);
    SubsetSize(Newest(h, DAILY, 14), Keep(h));
    if h != {} {
      var d := Latest(h);
      assert Newer(h, DAILY, d) == {};
      assert d in Keep(h);
    }
  }

  lemma {:induction false} Latest(s: set<Date>) returns (m: Date)
    requires s != {}
    ensures m in s && forall d :: d in s ==> d <= m
  {
    m := Member(s);
    if s != {m} {
      var n := Latest(s - {m});
      assert forall d :: d in s && d != m ==> d in s - {m};
      if n > m { m := n; }
    }
  }

  // Of a daily history of eight weeks up to b, every week that ends in the last 50 days has
  // a kept date.
  lemma {:induction false} NoGapOfAWeek(h: set<Date>, b: Date, d: Date)
    requires forall e :: b - 55 <= e <= b ==> e in h
    requires forall e :: e in h ==> e <= b
    requires b - 49 <= d <= b
    ensures exists e :: e in Keep(h) && d - 6 <= e <= d
  {
    var sunday := d - (Weekday(d) + 1) % 7;
    assert IsSunday(sunday) && d - 6 <= sunday <= d && sunday in h;
    LaterSundays(h, b, sunday);
    assert WEEKLY(sunday);
    assert sunday in Newest(h, WEEKLY, 8);
    assert sunday in Keep(h);
  }

  // Seven Sundays at most fall into the eight weeks after one.
  lemma {:induction false} LaterSundays(h: set<Date>, b: Date, sunday: Date)
    requires IsSunday(sunday) && b - 55 <= sunday && forall e :: e in h ==> e <= b
    ensures |Newer(h, WEEKLY, sunday)| < 8
  {
    var later := Newer(h, WEEKLY, sunday);
    forall e | e in later ensures e in WeeksAfter(sunday, 7) {
      assert IsSunday(e) && 0 < e - sunday <= 55;
      assert e == sunday + 7 * ((e - sunday) / 7);
    }
    SubsetSize(later, WeeksAfter(sunday, 7));
  }

  // The days one to n weeks after a day.
  ghost function WeeksAfter(from: Date, n: nat): (s: set<Date>)
    ensures |s| <= n
    ensures forall k :: 1 <= k <= n ==> from + 7 * k in s
  {
    if n == 0 then {} else WeeksAfter(from, n - 1) + {from + 7 * n}
  }

  // Of any history up to b, the first of each of the last six months is kept if there is a
  // backup of it; with a gap-free history, all six.
  lemma {:induction false} FirstsOfSixMonthsKept(h: set<Date>, b: Date, i: nat)
    requires forall e :: e in h ==> e <= b
    requires b < MonthStart(i + 6) && MonthStart(i) in h
    ensures MonthStart(i) in Keep(h)
  {
    var first := MonthStart(i);
    LaterFirsts(h, b, i);
    MonthStartIsFirst(i);
    assert MONTHLY(first) && first in Newest(h, MONTHLY, 6);
  }

  // The month starts after the i-th, n of them.
  ghost function StartsAfter(i: nat, n: nat): (s: set<Date>)
    ensures |s| <= n
    ensures forall k :: i < k <= i + n ==> MonthStart(k) in s
  {
    if n == 0 then {} else StartsAfter(i, n - 1) + {MonthStart(i + n)}
  }

  lemma {:induction false} LaterFirsts(h: set<Date>, b: Date, i: nat)
    requires (forall e :: e in h ==> e <= b) && b < MonthStart(i + 6)
    ensures |Newer(h, MONTHLY, MonthStart(i))| < 6
  {
    MonthStartIsFirst(i);
    forall e | e in Newer(h, MONTHLY, MonthStart(i)) ensures e in StartsAfter(i, 5) {
      var k := FirstIsMonthStart(e);
      if k <= i {
        MonthsInOrder(k, i);
      } else if k >= i + 6 {
        MonthsInOrder(i + 6, k);
      }
    }
    SubsetSize(Newer(h, MONTHLY, MonthStart(i)), StartsAfter(i, 5));
  }

  lemma {:induction false} MonthsInOrder(i: nat, j: nat)
    requires i <= j
    ensures MonthStart(i) <= MonthStart(j)
  {
    if i < j {
      MonthsRise(i, j);
    }
  }
}
