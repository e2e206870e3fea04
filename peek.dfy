/** The peek listing: entries ordered directories first and then by lower-cased
    name, dot-prefixed entries hidden unless --all is given, and modification
    times rendered on a 12-hour clock. */
module Peek {
  import opened Wrappers
  import Decimal

  /** One entry of the listed directory. */
  datatype Entry = Entry(name: string, isDir: bool)

  // ------------------------------------------------------------ ordering

  /** str.lower() on the ASCII letters. */
  function LowerChar(c: char): char
  {
    if 'A' <= c <= 'Z' then (c as int + 32) as char else c
  }

  function Lower(s: string): (r: string)
    ensures |r| == |s|
    ensures forall i :: 0 <= i < |s| ==> r[i] == LowerChar(s[i])
  {
    if s == [] then [] else [LowerChar(s[0])] + Lower(s[1..])
  }

  /** Python's string order: by code point, a proper prefix first. */
  predicate StrLe(a: string, b: string)
  {
    a == [] || (b != [] && (a[0] < b[0] || (a[0] == b[0] && StrLe(a[1..], b[1..]))))
  }

  lemma {:induction false} StrLeTotal(a: string, b: string)
    ensures StrLe(a, b) || StrLe(b, a)
  {
    if a != [] && b != [] && a[0] == b[0] {
      StrLeTotal(a[1..], b[1..]);
    }
  }

  lemma {:induction false} StrLeTrans(a: string, b: string, c: string)
    requires StrLe(a, b) && StrLe(b, c)
    ensures StrLe(a, c)
  {
    if a != [] && a[0] == b[0] && b[0] == c[0] {
      StrLeTrans(a[1..], b[1..], c[1..]);
    }
  }

  /** The first component of the key (0 if p.is_dir() else 1, p.name.lower()). */
  function Rank(e: Entry): nat
  {
    if e.isDir then 0 else 1
  }

  /** The sort key comparison, as a total preorder. */
  predicate KeyLe(x: Entry, y: Entry)
  {
    Rank(x) < Rank(y) || (Rank(x) == Rank(y) && StrLe(Lower(x.name), Lower(y.name)))
  }

  lemma KeyLeTotal(x: Entry, y: Entry)
    ensures KeyLe(x, y) || KeyLe(y, x)
  {
    StrLeTotal(Lower(x.name), Lower(y.name));
  }

  lemma KeyLeTrans(x: Entry, y: Entry, z: Entry)
    requires KeyLe(x, y) && KeyLe(y, z)
    ensures KeyLe(x, z)
  {
    if Rank(x) == Rank(y) == Rank(z) {
      StrLeTrans(Lower(x.name), Lower(y.name), Lower(z.name));
    }
  }

  predicate Sorted(s: seq<Entry>)
  {
    forall i, j :: 0 <= i < j < |s| ==> KeyLe(s[i], s[j])
  }

  /** Puts e before the first entry whose key is not below it. */
  function Insert(e: Entry, s: seq<Entry>): (r: seq<Entry>)
    ensures multiset(r) == multiset(s) + multiset{e}
  {
    if s == [] then [e]
    else if KeyLe(e, s[0]) then [e] + s
    else
      assert s == [s[0]] + s[1..];
      [s[0]] + Insert(e, s[1..])
  }

  /** An entry whose key is below every key of an ordered list may go before it. */
  lemma SortedCons(x: Entry, t: seq<Entry>)
    requires Sorted(t)
    requires forall y :: y in t ==> KeyLe(x, y)
    ensures Sorted([x] + t)
  {
    var r := [x] + t;
    forall i, j | 0 <= i < j < |r| ensures KeyLe(r[i], r[j]) {
      assert r[j] == t[j - 1] && r[j] in t;
      if i > 0 { assert r[i] == t[i - 1]; }
    }
  }

  /** The tail of an ordered list is ordered, and its head's key is below the rest. */
  lemma SortedHead(s: seq<Entry>)
    requires Sorted(s) && s != []
    ensures Sorted(s[1..])
    ensures forall y :: y in s[1..] ==> KeyLe(s[0], y)
  {
    forall y | y in s[1..] ensures KeyLe(s[0], y) {
      var k :| 0 <= k < |s[1..]| && s[1..][k] == y;
      assert s[k + 1] == y;
    }
  }

  lemma {:induction false} InsertSorted(e: Entry, s: seq<Entry>)
    requires Sorted(s)
    ensures Sorted(Insert(e, s))
  {
    if s == [] {
    } else if KeyLe(e, s[0]) {
      SortedHead(s);
      assert s == [s[0]] + s[1..];
      forall y | y in s ensures KeyLe(e, y) {
        if y != s[0] { KeyLeTrans(e, s[0], y); }
      }
      SortedCons(e, s);
    } else {
      KeyLeTotal(e, s[0]);
      SortedHead(s);
      InsertSorted(e, s[1..]);
      var t := Insert(e, s[1..]);
      forall y | y in t ensures KeyLe(s[0], y) {
        assert y in multiset(t);
        assert y == e || y in multiset(s[1..]);
      }
      SortedCons(s[0], t);
    }
  }

  /** sorted(paths, key=...), as an insertion sort: the result is ordered by
      KeyLe and a permutation of the input (SortEntriesSorted). */
  function SortEntries(es: seq<Entry>): (r: seq<Entry>)
    ensures multiset(r) == multiset(es)
  {
    if es == [] then []
    else
      assert es == [es[0]] + es[1..];
      Insert(es[0], SortEntries(es[1..]))
  }

  lemma {:induction false} SortEntriesSorted(es: seq<Entry>)
    ensures Sorted(SortEntries(es))
  {
    if es != [] {
      SortEntriesSorted(es[1..]);
      InsertSorted(es[0], SortEntries(es[1..]));
    }
  }

  // ------------------------------------------------------------- hiding

  predicate IsHidden(name: string)
  {
    |name| > 0 && name[0] == '.'
  }

  /** [p for p in paths if not p.name.startswith('.')]. */
  function HideDotted(s: seq<Entry>): (r: seq<Entry>)
    ensures |r| <= |s|
  {
    if s == [] then []
    else if IsHidden(s[0].name) then HideDotted(s[1..])
    else [s[0]] + HideDotted(s[1..])
  }

  /** HideDotted keeps exactly the visible entries, each as many times as before. */
  lemma {:induction false} HideDottedCounts(s: seq<Entry>)
    ensures forall x :: multiset(HideDotted(s))[x] == (if IsHidden(x.name) then 0 else multiset(s)[x])
  {
    if s != [] {
      HideDottedCounts(s[1..]);
      assert s == [s[0]] + s[1..];
    }
  }

  /** Dropping entries keeps the rest in order. */
  lemma {:induction false} HideDottedSorted(s: seq<Entry>)
    requires Sorted(s)
    ensures Sorted(HideDotted(s))
  {
    if s != [] {
      SortedHead(s);
      HideDottedSorted(s[1..]);
      if !IsHidden(s[0].name) {
        var t := HideDotted(s[1..]);
        HideDottedCounts(s[1..]);
        forall y | y in t ensures KeyLe(s[0], y) {
          assert y in multiset(t);
          assert y in multiset(s[1..]);
        }
        SortedCons(s[0], t);
      }
    }
  }

  /** The entries peek prints, in order. */
  function PeekRows(es: seq<Entry>, all: bool): seq<Entry>
  {
    var ordered := SortEntries(es);
    if all then ordered else HideDotted(ordered)
  }

  /** A sequence that holds each entry at most once repeats none. */
  lemma AtMostOnce(s: seq<Entry>)
    requires forall x :: multiset(s)[x] <= 1
    ensures forall i, j :: 0 <= i < j < |s| ==> s[i] != s[j]
  {
    forall i, j | 0 <= i < j < |s| ensures s[i] != s[j] {
      assert s == s[..j] + s[j..];
      assert s[i] in s[..j] && s[j] in s[j..];
      var front, back := multiset(s[..j]), multiset(s[j..]);
      assert multiset(s) == front + back;
      assert multiset(s)[s[i]] == front[s[i]] + back[s[i]] <= 1;
      assert front[s[i]] >= 1 && back[s[j]] >= 1;
    }
  }

  /** The listing is ordered, and holds every entry once for each time it was
      listed, except hidden ones when --all is absent. */
  lemma PeekRowsSpec(es: seq<Entry>, all: bool)
    ensures Sorted(PeekRows(es, all))
    ensures forall x :: multiset(PeekRows(es, all))[x] == (if !all && IsHidden(x.name) then 0 else multiset(es)[x])
  {
    SortEntriesSorted(es);
    if !all {
      HideDottedSorted(SortEntries(es));
      HideDottedCounts(SortEntries(es));
    }
  }

  /** In an ordered listing no file comes before a directory. */
  lemma DirsFirst(s: seq<Entry>, i: int, j: int)
    requires Sorted(s) && 0 <= i < j < |s| && s[j].isDir
    ensures s[i].isDir
  {
    assert KeyLe(s[i], s[j]);
  }

  // ----------------------------------------------------------- fmt_time

  /** The fields of datetime.fromtimestamp(ts) that fmt_time prints. */
  datatype DateTime = DateTime(year: nat, month: nat, day: nat, hour: nat, minute: nat)

  predicate ValidTime(t: DateTime)
  {
    1 <= t.year <= 9999 && 1 <= t.month <= 12 && 1 <= t.day <= 31 && t.hour < 24 && t.minute < 60
  }

  /** dt.hour % 12 or 12. */
  function Hour12(hour: nat): (h: nat)
    ensures 1 <= h <= 12
    ensures h % 12 == hour % 12
  {
    if hour % 12 == 0 then 12 else hour % 12
  }

  /** 'AM' if dt.hour < 12 else 'PM'. */
  function Meridiem(hour: nat): string
  {
    if hour < 12 then "AM" else "PM"
  }

  /** f"{m}/{d}/{Y}  {h}:{minute:02d} {ampm}". */
  function FmtTime(t: DateTime): (s: string)
    requires ValidTime(t)
  {
    Decimal.Digits(t.month) + ("/" + (Decimal.Digits(t.day) + ("/" + (Decimal.Digits(t.year) + ("  "
    + (Decimal.Digits(Hour12(t.hour)) + (":" + (Decimal.Pad2(t.minute) + " " + Meridiem(t.hour)))))))))
  }

  /** The 24-hour clock hour a 12-hour reading denotes. */
  function To24(h: nat, am: bool): nat
  {
    if am then (if h == 12 then 0 else h) else (if h == 12 then 12 else h + 12)
  }

  /** The 12-hour reading and its marker determine the hour. */
  lemma Hour12Inverse(hour: nat)
    requires hour < 24
    ensures To24(Hour12(hour), Meridiem(hour) == "AM") == hour
    ensures Meridiem(hour) == "AM" <==> hour < 12
  {
  }

  function Expect(s: string, lit: string): Option<string>
  {
    if lit <= s then Some(s[|lit|..]) else None
  }

  lemma ExpectOf(lit: string, rest: string)
    ensures Expect(lit + rest, lit) == Some(rest)
  {
    assert (lit + rest)[..|lit|] == lit;
  }

  /** A number and the separator after it. */
  function ReadField(s: string, sep: string): Option<(nat, string)>
  {
    var a :- Decimal.ReadNat(s);
    var b :- Expect(a.1, sep);
    Some((a.0, b))
  }

  lemma ReadFieldOf(d: string, sep: string, rest: string)
    requires d != [] && Decimal.AllDigits(d)
    requires sep != [] && !Decimal.IsDigit(sep[0])
    ensures ReadField(d + (sep + rest), sep) == Some((Decimal.Value(d), rest))
  {
    Decimal.ReadNatOf(d, sep + rest);
    ExpectOf(sep, rest);
  }

  /** The two-digit minute and the AM/PM marker that end the text. */
  function ReadTail(s: string): Option<(nat, bool)>
  {
    if |s| == 5 && Decimal.AllDigits(s[..2]) && (s[2..] == " AM" || s[2..] == " PM") then
      Some((Decimal.Value(s[..2]), s[2..] == " AM"))
    else None
  }

  lemma ReadTailOf(minute: nat, hour: nat)
    requires minute < 60
    ensures ReadTail(Decimal.Pad2(minute) + " " + Meridiem(hour)) == Some((minute, hour < 12))
  {
    var mm := Decimal.Pad2(minute);
    var ap := Meridiem(hour);
    var s := mm + " " + ap;
    assert |s| == 5;
    assert s[..2] == mm;
    assert s[2..] == " " + ap;
    Decimal.ValueOfPad2(minute);
    assert (s[2..] == " AM") == (hour < 12) by {
      if hour < 12 { assert ap == "AM"; } else { assert ap == "PM"; assert " PM" != " AM"; }
    }
  }

  /** Reads the text FmtTime writes. */
  function ReadTime(s: string): Option<DateTime>
  {
    var month :- ReadField(s, "/");
    var day :- ReadField(month.1, "/");
    var year :- ReadField(day.1, "  ");
    var hour :- ReadField(year.1, ":");
    var tail :- ReadTail(hour.1);
    Some(DateTime(year.0, month.0, day.0, To24(hour.0, tail.1), tail.0))
  }

  /** Every valid time's rendering reads back as that time. */
  lemma FmtTimeRoundTrip(t: DateTime)
    requires ValidTime(t)
    ensures ReadTime(FmtTime(t)) == Some(t)
  {
    var m, d, y := Decimal.Digits(t.month), Decimal.Digits(t.day), Decimal.Digits(t.year);
    var hh, mm, ap := Decimal.Digits(Hour12(t.hour)), Decimal.Pad2(t.minute), Meridiem(t.hour);
    var tail := mm + " " + ap;
    var r3 := hh + (":" + tail);
    var r2 := y + ("  " + r3);
    var r1 := d + ("/" + r2);
    var s := m + ("/" + r1);
    assert FmtTime(t) == s;
    Decimal.ValueOfDigits(t.month);
    Decimal.ValueOfDigits(t.day);
    Decimal.ValueOfDigits(t.year);
    Decimal.ValueOfDigits(Hour12(t.hour));
    ReadFieldOf(m, "/", r1);
    assert ReadField(s, "/") == Some((t.month, r1));
    ReadFieldOf(d, "/", r2);
    assert ReadField(r1, "/") == Some((t.day, r2));
    ReadFieldOf(y, "  ", r3);
    assert ReadField(r2, "  ") == Some((t.year, r3));
    ReadFieldOf(hh, ":", tail);
    assert ReadField(r3, ":") == Some((Hour12(t.hour), tail));
    ReadTailOf(t.minute, t.hour);
    Hour12Inverse(t.hour);
  }
}
