/**
 * The uptime formatter `formate_time`: a number of seconds is split into
 * days, hours, minutes and seconds, each nonzero component becomes a segment
 * "<n> <unit>", and the segments are joined by ", ", largest unit first.
 *
 * Besides the formatter itself the module defines a reader for the text it
 * produces, so that the lemmas can state that the text loses nothing: it
 * splits back into exactly the nonzero components, in order, and they add
 * up to the original number of seconds.
 */
module Uptime {
  import opened Wrappers
  import opened Numeric

  /** The four components of a duration, as the formatter computes them. */
  datatype Duration = Duration(days: nat, hours: nat, minutes: nat, seconds: nat)

  /** The unit of one segment of the text. */
  datatype Field = Days | Hours | Minutes | Seconds {
    /** The word printed after the number; always the plural. */
    function Word(): string {
      match this
      case Days => "days"
      case Hours => "hours"
      case Minutes => "minutes"
      case Seconds => "seconds"
    }

    /** The number of seconds one unit stands for. */
    function Weight(): nat {
      match this
      case Days => 86400
      case Hours => 3600
      case Minutes => 60
      case Seconds => 1
    }

    /** The position of the field in the text, largest unit first. */
    function Rank(): nat {
      match this
      case Days => 0
      case Hours => 1
      case Minutes => 2
      case Seconds => 3
    }
  }

  /** A segment before printing: a count paired with its unit. */
  type Entry = (nat, Field)

  predicate Normalized(d: Duration) {
    d.hours < 24 && d.minutes < 60 && d.seconds < 60
  }

  function TotalSeconds(d: Duration): nat {
    d.days * 86400 + d.hours * 3600 + d.minutes * 60 + d.seconds
  }

  function Component(d: Duration, f: Field): nat {
    match f
    case Days => d.days
    case Hours => d.hours
    case Minutes => d.minutes
    case Seconds => d.seconds
  }

  function NonzeroCount(d: Duration): nat {
    (if d.days > 0 then 1 else 0) + (if d.hours > 0 then 1 else 0)
    + (if d.minutes > 0 then 1 else 0) + (if d.seconds > 0 then 1 else 0)
  }

  /**
   * The successive divisions and remainders of `formate_time`: the result is
   * the one normalized duration that adds up to `value`.
   */
  function Decompose(value: nat): (d: Duration)
    ensures TotalSeconds(d) == value
    ensures Normalized(d)
  {
    var days, inDay := value / 86400, value % 86400;
    var hours, inHour := inDay / 3600, inDay % 3600;
    var minutes, seconds := inHour / 60, inHour % 60;
    assert value % 3600 == inHour by {
      assert value == (days * 24 + hours) * 3600 + inHour;
      DivModUnique(value, 3600, days * 24 + hours, inHour);
    }
    assert value % 60 == seconds by {
      assert value == (days * 1440 + hours * 60 + minutes) * 60 + seconds;
      DivModUnique(value, 60, days * 1440 + hours * 60 + minutes, seconds);
    }
    Duration(value / 86400, (value % 86400) / 3600, (value % 3600) / 60, value % 60)
  }

  /** Decompose inverts TotalSeconds on normalized durations. */
  lemma DecomposeTotalSeconds(d: Duration)
    requires Normalized(d)
    ensures Decompose(TotalSeconds(d)) == d
  {
    var v := TotalSeconds(d);
    var inDay := d.hours * 3600 + d.minutes * 60 + d.seconds;
    var inHour := d.minutes * 60 + d.seconds;
    DivModUnique(v, 86400, d.days, inDay);
    DivModUnique(inDay, 3600, d.hours, inHour);
    assert v == (d.days * 24 + d.hours) * 3600 + inHour;
    DivModUnique(v, 3600, d.days * 24 + d.hours, inHour);
    DivModUnique(inHour, 60, d.minutes, d.seconds);
    assert v == (d.days * 1440 + d.hours * 60 + d.minutes) * 60 + d.seconds;
    DivModUnique(v, 60, d.days * 1440 + d.hours * 60 + d.minutes, d.seconds);
  }

  /** The fields in the order the text shows them, largest unit first. */
  const FieldOrder: seq<Field> := [Days, Hours, Minutes, Seconds]

  /** The nonzero components of `d` among `fs`, in the order of `fs`. */
  function Keep(d: Duration, fs: seq<Field>): seq<Entry> {
    if fs == [] then []
    else (if Component(d, fs[0]) > 0 then [(Component(d, fs[0]), fs[0])] else []) + Keep(d, fs[1..])
  }

  /** The segments the text of `d` shows: its nonzero components, largest unit first. */
  function Entries(d: Duration): seq<Entry> {
    Keep(d, FieldOrder)
  }

  /** The seconds a list of segments stands for. */
  function Sum(e: seq<Entry>): nat {
    if e == [] then 0 else e[0].0 * e[0].1.Weight() + Sum(e[1..])
  }

  /** The seconds the components of `d` among `fs` stand for. */
  function WeightedSum(d: Duration, fs: seq<Field>): nat {
    if fs == [] then 0 else Component(d, fs[0]) * fs[0].Weight() + WeightedSum(d, fs[1..])
  }

  lemma {:induction false} SumAppend(a: seq<Entry>, b: seq<Entry>)
    ensures Sum(a + b) == Sum(a) + Sum(b)
    decreases |a|
  {
    if a != [] {
      assert (a + b)[1..] == a[1..] + b;
      SumAppend(a[1..], b);
    } else {
      assert a + b == b;
    }
  }

  /** Every kept entry is a nonzero component of `d`, labelled with its field from `fs`. */
  lemma {:induction false} KeepFaithful(d: Duration, fs: seq<Field>)
    ensures forall i :: 0 <= i < |Keep(d, fs)| ==>
      Keep(d, fs)[i].0 > 0 && Keep(d, fs)[i].0 == Component(d, Keep(d, fs)[i].1) && Keep(d, fs)[i].1 in fs
    decreases |fs|
  {
    if fs != [] {
      KeepFaithful(d, fs[1..]);
      var head := if Component(d, fs[0]) > 0 then [(Component(d, fs[0]), fs[0])] else [];
      var k := Keep(d, fs);
      forall i | 0 <= i < |k|
        ensures k[i].0 > 0 && k[i].0 == Component(d, k[i].1) && k[i].1 in fs
      {
        if i >= |head| {
          assert k[i] == Keep(d, fs[1..])[i - |head|];
        }
      }
    }
  }

  /** Every nonzero component of `d` among `fs` is kept. */
  lemma {:induction false} KeepComplete(d: Duration, fs: seq<Field>, f: Field)
    requires f in fs && Component(d, f) > 0
    ensures exists i :: 0 <= i < |Keep(d, fs)| && Keep(d, fs)[i].1 == f
    decreases |fs|
  {
    var head := if Component(d, fs[0]) > 0 then [(Component(d, fs[0]), fs[0])] else [];
    if fs[0] == f {
      assert Keep(d, fs)[0].1 == f;
    } else {
      KeepComplete(d, fs[1..], f);
      var i :| 0 <= i < |Keep(d, fs[1..])| && Keep(d, fs[1..])[i].1 == f;
      assert Keep(d, fs)[i + |head|].1 == f;
    }
  }

  /** Keeping preserves a strictly increasing order of fields. */
  lemma {:induction false} KeepOrdered(d: Duration, fs: seq<Field>)
    requires forall i, j :: 0 <= i < j < |fs| ==> fs[i].Rank() < fs[j].Rank()
    ensures forall i, j :: 0 <= i < j < |Keep(d, fs)| ==> Keep(d, fs)[i].1.Rank() < Keep(d, fs)[j].1.Rank()
    decreases |fs|
  {
    if fs != [] {
      var tail := fs[1..];
      var head := if Component(d, fs[0]) > 0 then [(Component(d, fs[0]), fs[0])] else [];
      var k := Keep(d, fs);
      forall i, j | 0 <= i < j < |k| ensures k[i].1.Rank() < k[j].1.Rank() {
        assert k[j] == Keep(d, tail)[j - |head|];
        if i < |head| {
          KeepFaithful(d, tail);
          var t :| 0 <= t < |tail| && tail[t] == k[j].1;
          assert fs[t + 1] == tail[t];
        } else {
          KeepOrdered(d, tail);
          assert k[i] == Keep(d, tail)[i - |head|];
        }
      }
    }
  }

  /** The kept entries stand for all the seconds of the components among `fs`. */
  lemma {:induction false} KeepSum(d: Duration, fs: seq<Field>)
    ensures Sum(Keep(d, fs)) == WeightedSum(d, fs)
    decreases |fs|
  {
    if fs != [] {
      var head := if Component(d, fs[0]) > 0 then [(Component(d, fs[0]), fs[0])] else [];
      KeepSum(d, fs[1..]);
      SumAppend(head, Keep(d, fs[1..]));
    }
  }

  /** The four conditional pushes of `formate_time` build exactly Entries. */
  lemma EntriesByField(d: Duration)
    ensures Entries(d) ==
      (if d.days > 0 then [(d.days, Days)] else [])
      + (if d.hours > 0 then [(d.hours, Hours)] else [])
      + (if d.minutes > 0 then [(d.minutes, Minutes)] else [])
      + (if d.seconds > 0 then [(d.seconds, Seconds)] else [])
  {
    var f1, f2, f3 := [Hours, Minutes, Seconds], [Minutes, Seconds], [Seconds];
    assert FieldOrder[1..] == f1 && f1[1..] == f2 && f2[1..] == f3 && f3[1..] == [];
    assert Keep(d, f3) == (if d.seconds > 0 then [(d.seconds, Seconds)] else []) + Keep(d, []);
    assert Keep(d, f2) == (if d.minutes > 0 then [(d.minutes, Minutes)] else []) + Keep(d, f3);
    assert Keep(d, f1) == (if d.hours > 0 then [(d.hours, Hours)] else []) + Keep(d, f2);
    assert Keep(d, FieldOrder) == (if d.days > 0 then [(d.days, Days)] else []) + Keep(d, f1);
  }

  /** Weighting the components in field order gives the duration's seconds. */
  lemma WeightedSumInOrder(d: Duration)
    ensures WeightedSum(d, FieldOrder) == TotalSeconds(d)
  {
    var f1, f2, f3 := [Hours, Minutes, Seconds], [Minutes, Seconds], [Seconds];
    assert FieldOrder[1..] == f1 && f1[1..] == f2 && f2[1..] == f3 && f3[1..] == [];
    assert WeightedSum(d, f3) == d.seconds;
    assert WeightedSum(d, f2) == d.minutes * 60 + d.seconds;
    assert WeightedSum(d, f1) == d.hours * 3600 + d.minutes * 60 + d.seconds;
  }

  /**
   * The segments of a duration: one per nonzero component and none for a
   * zero one, each carrying its component, in strictly descending unit
   * order, and adding up to the duration.
   */
  lemma EntriesShape(d: Duration)
    ensures |Entries(d)| == NonzeroCount(d)
    ensures forall i :: 0 <= i < |Entries(d)| ==>
      Entries(d)[i].0 > 0 && Entries(d)[i].0 == Component(d, Entries(d)[i].1)
    ensures forall f: Field :: Component(d, f) > 0 <==> exists i :: 0 <= i < |Entries(d)| && Entries(d)[i].1 == f
    ensures forall i, j :: 0 <= i < j < |Entries(d)| ==> Entries(d)[i].1.Rank() < Entries(d)[j].1.Rank()
    ensures Sum(Entries(d)) == TotalSeconds(d)
  {
    var e := Entries(d);
    assert |e| == NonzeroCount(d) by {
      EntriesByField(d);
    }
    KeepFaithful(d, FieldOrder);
    forall f: Field | Component(d, f) > 0
      ensures exists i :: 0 <= i < |e| && e[i].1 == f
    {
      assert f in FieldOrder by { assert FieldOrder[f.Rank()] == f; }
      KeepComplete(d, FieldOrder, f);
    }
    assert forall i, j :: 0 <= i < j < |e| ==> e[i].1.Rank() < e[j].1.Rank() by {
      KeepOrdered(d, FieldOrder);
    }
    assert Sum(e) == TotalSeconds(d) by {
      KeepSum(d, FieldOrder);
      WeightedSumInOrder(d);
    }
  }

  /**
   * One segment as `format!("{} days", days)` and its siblings print it: the
   * decimal digits of `n`, a space, then the unit word. It holds no comma
   * (SegmentHasNoComma), so the separator of the joined text cannot occur
   * inside it, and it reads back as `n` and `f` (SegmentRoundTrip).
   */
  function Segment(n: nat, f: Field): (seg: string)
    ensures |seg| > |f.Word()| && IsDigit(seg[0])
  {
    NatToString(n) + " " + f.Word()
  }

  function Render(e: seq<Entry>): (parts: seq<string>)
    ensures |parts| == |e|
  {
    seq(|e|, i requires 0 <= i < |e| => Segment(e[i].0, e[i].1))
  }

  lemma RenderTail(e: seq<Entry>)
    requires e != []
    ensures Render(e)[1..] == Render(e[1..])
  {
    assert forall i | 0 <= i < |e| - 1 :: Render(e)[1..][i] == Render(e[1..])[i];
  }

  /** What one `if n > 0 { parts.push(..) }` of `formate_time` adds to the parts. */
  function Pushed(n: nat, f: Field): seq<string> {
    if n > 0 then [Segment(n, f)] else []
  }

  lemma {:induction false} RenderConcat(a: seq<Entry>, b: seq<Entry>)
    ensures Render(a + b) == Render(a) + Render(b)
  {
    assert forall i | 0 <= i < |a + b| :: Render(a + b)[i] == (Render(a) + Render(b))[i];
  }

  /** The segments of a duration, one conditional push per field. */
  lemma RenderByField(d: Duration)
    ensures Render(Entries(d)) ==
      Pushed(d.days, Days) + Pushed(d.hours, Hours) + Pushed(d.minutes, Minutes)
      + Pushed(d.seconds, Seconds)
  {
    EntriesByField(d);
    var a := if d.days > 0 then [(d.days, Days)] else [];
    var b := if d.hours > 0 then [(d.hours, Hours)] else [];
    var c := if d.minutes > 0 then [(d.minutes, Minutes)] else [];
    var e := if d.seconds > 0 then [(d.seconds, Seconds)] else [];
    assert Render(a) == Pushed(d.days, Days);
    assert Render(b) == Pushed(d.hours, Hours);
    assert Render(c) == Pushed(d.minutes, Minutes);
    assert Render(e) == Pushed(d.seconds, Seconds);
    RenderConcat(a + b + c, e);
    RenderConcat(a + b, c);
    RenderConcat(a, b);
  }

  /**
   * `parts.join(sep)`: the parts with `sep` between each two neighbours, and
   * the empty text for no parts. `SplitJoin` cuts the text back into the
   * parts when no part holds the separator.
   */
  function Join(parts: seq<string>, sep: string): (text: string)
    ensures |parts| == 0 ==> text == ""
  {
    if |parts| == 0 then ""
    else if |parts| == 1 then parts[0]
    else parts[0] + sep + Join(parts[1..], sep)
  }

  /**
   * The text `formate_time(value)` returns. It is empty exactly when the
   * uptime is zero; the lemmas below state its segments and its round trip.
   */
  function UptimeText(value: nat): (text: string)
    ensures |text| == 0 <==> value == 0
  {
    var d := Decompose(value);
    EntriesEmpty(d);
    Join(Render(Entries(d)), ", ")
  }

  /**
   * `formate_time`: compute the four components, push the segment of each
   * nonzero one in turn, then join the segments with ", ".
   */
  method FormatTime(value: nat) returns (text: string)
    requires value < U64_LIMIT
    ensures text == UptimeText(value)
    ensures |text| == 0 <==> value == 0
  {
    var days: nat := value / 86400;
    var hours: nat := (value % 86400) / 3600;
    var minutes: nat := (value % 3600) / 60;
    var seconds: nat := value % 60;

    var parts: seq<string> := [];
    if days > 0 {
      parts := parts + [Segment(days, Days)];
    }
    assert parts == Pushed(days, Days);
    if hours > 0 {
      parts := parts + [Segment(hours, Hours)];
    }
    assert parts == Pushed(days, Days) + Pushed(hours, Hours);
    if minutes > 0 {
      parts := parts + [Segment(minutes, Minutes)];
    }
    assert parts == Pushed(days, Days) + Pushed(hours, Hours) + Pushed(minutes, Minutes);
    if seconds > 0 {
      parts := parts + [Segment(seconds, Seconds)];
    }
    assert parts == Pushed(days, Days) + Pushed(hours, Hours) + Pushed(minutes, Minutes)
                    + Pushed(seconds, Seconds);
    assert Decompose(value) == Duration(days, hours, minutes, seconds);
    RenderByField(Decompose(value));

    text := Join(parts, ", ");
  }

  // ---------------------------------------------------------------------
  // Reading the text back

  /** The pieces of `s` between the occurrences of the separator ", ". */
  function Split(s: string): (pieces: seq<string>)
    ensures |pieces| >= 1
    decreases |s|
  {
    if |s| == 0 then [""]
    else if |s| >= 2 && s[0] == ',' && s[1] == ' ' then [""] + Split(s[2..])
    else
      var rest := Split(s[1..]);
      [[s[0]] + rest[0]] + rest[1..]
  }

  /** The length of the run of digits at the start of `s`. */
  function LeadingDigits(s: string): (k: nat)
    ensures k <= |s|
    ensures AllDigits(s[..k])
    ensures k < |s| ==> !IsDigit(s[k])
    decreases |s|
  {
    if s != [] && IsDigit(s[0]) then
      var k := 1 + LeadingDigits(s[1..]);
      assert s[..k] == [s[0]] + s[1..][..k - 1];
      k
    else 0
  }

  function FieldOfWord(w: string): Option<Field> {
    if w == "days" then Some(Days)
    else if w == "hours" then Some(Hours)
    else if w == "minutes" then Some(Minutes)
    else if w == "seconds" then Some(Seconds)
    else None
  }

  /** Reads "<digits> <unit word>". */
  function ParseSegment(seg: string): Option<Entry> {
    var k := LeadingDigits(seg);
    if 0 < k < |seg| && seg[k] == ' ' then
      match FieldOfWord(seg[k + 1..])
      case Some(f) => Some((DigitsValue(seg[..k]), f))
      case None => None
    else None
  }

  function ParseEntries(pieces: seq<string>): Option<seq<Entry>> {
    if pieces == [] then Some([])
    else
      match ParseSegment(pieces[0])
      case None => None
      case Some(e) =>
        match ParseEntries(pieces[1..])
        case None => None
        case Some(rest) => Some([e] + rest)
  }

  /** The segments of an uptime text: none for the empty text, else the pieces between separators. */
  function Pieces(s: string): seq<string> {
    if s == "" then [] else Split(s)
  }

  /** The number of seconds an uptime text stands for; the empty text stands for zero. */
  function ParseUptime(s: string): Option<nat> {
    match ParseEntries(Pieces(s))
    case None => None
    case Some(e) => Some(Sum(e))
  }

  // ---------------------------------------------------------------------
  // Lemmas

  lemma {:induction false} SplitWithoutSeparator(p: string)
    requires ',' !in p
    ensures Split(p) == [p]
    decreases |p|
  {
    if p != [] {
      assert ',' !in p[1..];
      SplitWithoutSeparator(p[1..]);
      assert [p[0]] + p[1..] == p;
    }
  }

  lemma {:induction false} SplitAtFirstSeparator(p: string, t: string)
    requires ',' !in p
    ensures Split(p + ", " + t) == [p] + Split(t)
    decreases |p|
  {
    if p == [] {
      assert p + ", " + t == ", " + t;
      assert (", " + t)[2..] == t;
    } else {
      var s := p + ", " + t;
      assert s[0] == p[0] && s[1..] == p[1..] + ", " + t;
      assert ',' !in p[1..];
      SplitAtFirstSeparator(p[1..], t);
      assert [p[0]] + p[1..] == p;
    }
  }

  /** Splitting a join recovers the parts, as long as no part holds a comma. */
  lemma {:induction false} SplitJoin(parts: seq<string>)
    requires |parts| >= 1
    requires forall i :: 0 <= i < |parts| ==> ',' !in parts[i]
    ensures Split(Join(parts, ", ")) == parts
    decreases |parts|
  {
    if |parts| == 1 {
      SplitWithoutSeparator(parts[0]);
    } else {
      SplitJoin(parts[1..]);
      SplitAtFirstSeparator(parts[0], Join(parts[1..], ", "));
    }
  }

  lemma {:induction false} LeadingDigitsBeforeSpace(p: string, t: string)
    requires AllDigits(p)
    ensures LeadingDigits(p + " " + t) == |p|
    decreases |p|
  {
    if p != [] {
      assert (p + " " + t)[1..] == p[1..] + " " + t;
      LeadingDigitsBeforeSpace(p[1..], t);
    }
  }

  /** No segment holds a comma. */
  lemma SegmentHasNoComma(n: nat, f: Field)
    ensures ',' !in Segment(n, f)
  {
    var p := NatToString(n);
    assert forall i | 0 <= i < |p| :: IsDigit(p[i]);
  }

  /** Each printed segment reads back as the count and unit it was printed from. */
  lemma SegmentRoundTrip(n: nat, f: Field)
    ensures ParseSegment(Segment(n, f)) == Some((n, f))
  {
    var p := NatToString(n);
    var seg := Segment(n, f);
    LeadingDigitsBeforeSpace(p, f.Word());
    assert seg[..|p|] == p;
    assert seg[|p| + 1..] == f.Word();
    DigitsValueOfNatToString(n);
  }

  lemma {:induction false} ParseRender(e: seq<Entry>)
    ensures ParseEntries(Render(e)) == Some(e)
    decreases |e|
  {
    if e != [] {
      var r := Render(e);
      assert ParseSegment(r[0]) == Some(e[0]) by {
        assert r[0] == Segment(e[0].0, e[0].1);
        SegmentRoundTrip(e[0].0, e[0].1);
      }
      assert ParseEntries(r[1..]) == Some(e[1..]) by {
        RenderTail(e);
        ParseRender(e[1..]);
      }
      assert [e[0]] + e[1..] == e;
    }
  }

  /** A duration shows no segment exactly when it is zero seconds long. */
  lemma EntriesEmpty(d: Duration)
    ensures Entries(d) == [] <==> TotalSeconds(d) == 0
  {
    EntriesByField(d);
  }

  /**
   * An uptime text reads back as exactly the segments of the nonzero
   * components, in order. A nonzero text has no empty piece between
   * separators, so it has no leading, trailing or doubled separator.
   */
  lemma UptimeTextSegments(value: nat)
    ensures Pieces(UptimeText(value)) == Render(Entries(Decompose(value)))
    ensures ParseEntries(Pieces(UptimeText(value))) == Some(Entries(Decompose(value)))
    ensures |Pieces(UptimeText(value))| == NonzeroCount(Decompose(value))
  {
    var e := Entries(Decompose(value));
    EntriesShape(Decompose(value));
    EntriesEmpty(Decompose(value));
    if e != [] {
      forall i | 0 <= i < |Render(e)|
        ensures ',' !in Render(e)[i]
      {
        SegmentHasNoComma(e[i].0, e[i].1);
      }
      SplitJoin(Render(e));
    }
    ParseRender(e);
  }

  /** Reading the text back gives the uptime it was printed from. */
  lemma UptimeTextRoundTrip(value: nat)
    ensures ParseUptime(UptimeText(value)) == Some(value)
  {
    UptimeTextSegments(value);
    EntriesShape(Decompose(value));
  }

  /** Two different uptimes never print the same text. */
  lemma UptimeTextInjective(a: nat, b: nat)
    ensures UptimeText(a) == UptimeText(b) ==> a == b
  {
    UptimeTextRoundTrip(a);
    UptimeTextRoundTrip(b);
  }

  /** Zero seconds of uptime print as the empty text. */
  lemma UptimeTextOfZero()
    ensures UptimeText(0) == ""
  {
  }

  /** The text of a normalized duration, one conditional push per field. */
  lemma UptimeTextByField(d: Duration)
    requires Normalized(d)
    ensures UptimeText(TotalSeconds(d)) == Join(
      Pushed(d.days, Days) + Pushed(d.hours, Hours) + Pushed(d.minutes, Minutes)
      + Pushed(d.seconds, Seconds), ", ")
  {
    DecomposeTotalSeconds(d);
    RenderByField(d);
  }

  lemma JoinOfThree(x: string, y: string, z: string, sep: string)
    ensures Join([x, y, z], sep) == x + sep + y + sep + z
  {
    assert [x, y, z][1..] == [y, z] && [y, z][1..] == [z];
    assert Join([z], sep) == z;
    assert Join([y, z], sep) == y + sep + z;
    assert Join([x, y, z], sep) == x + sep + (y + sep + z);
  }

  /** The one-digit segments the examples below print. */
  lemma OneDigitSegments()
    ensures Segment(1, Days) == "1 days"
    ensures Segment(1, Hours) == "1 hours"
    ensures Segment(1, Minutes) == "1 minutes"
    ensures Segment(1, Seconds) == "1 seconds"
    ensures Segment(5, Seconds) == "5 seconds"
  {
    assert NatToString(1) == "1" && NatToString(5) == "5";
  }

  /** Under an hour, a text of minutes and seconds shows just those two segments. */
  lemma UptimeTextOfMinutesAndSeconds(minutes: nat, seconds: nat)
    requires 0 < minutes < 60 && 0 < seconds < 60
    ensures UptimeText(minutes * 60 + seconds) == Segment(minutes, Minutes) + ", " + Segment(seconds, Seconds)
  {
    var d := Duration(0, 0, minutes, seconds);
    var x, y := Segment(minutes, Minutes), Segment(seconds, Seconds);
    calc {
      UptimeText(minutes * 60 + seconds);
    == { assert TotalSeconds(d) == minutes * 60 + seconds; }
      UptimeText(TotalSeconds(d));
    == { UptimeTextByField(d); }
      Join(Pushed(0, Days) + Pushed(0, Hours) + Pushed(minutes, Minutes) + Pushed(seconds, Seconds), ", ");
    == { assert Pushed(0, Days) + Pushed(0, Hours) + Pushed(minutes, Minutes) + Pushed(seconds, Seconds) == [x, y]; }
      Join([x, y], ", ");
    == { assert [x, y][1..] == [y]; }
      x + ", " + Join([y], ", ");
    }
  }

  /** 65 seconds print as one minute and five seconds; the hours and days are omitted. */
  lemma UptimeTextOf65()
    ensures UptimeText(65) == "1 minutes, 5 seconds"
  {
    calc {
      UptimeText(65);
    == { UptimeTextOfMinutesAndSeconds(1, 5); }
      Segment(1, Minutes) + ", " + Segment(5, Seconds);
    == { OneDigitSegments(); }
      "1 minutes, 5 seconds";
    }
  }

  /**
   * With zero hours, a text of days, minutes and seconds leaves the hours out
   * without leaving a gap between the neighbouring segments.
   */
  lemma UptimeTextWithoutHours(days: nat, minutes: nat, seconds: nat)
    requires 0 < days && 0 < minutes < 60 && 0 < seconds < 60
    ensures UptimeText(days * 86400 + minutes * 60 + seconds)
      == Segment(days, Days) + ", " + Segment(minutes, Minutes) + ", " + Segment(seconds, Seconds)
  {
    var d := Duration(days, 0, minutes, seconds);
    var x, y, z := Segment(days, Days), Segment(minutes, Minutes), Segment(seconds, Seconds);
    calc {
      UptimeText(days * 86400 + minutes * 60 + seconds);
    == { assert TotalSeconds(d) == days * 86400 + minutes * 60 + seconds; }
      UptimeText(TotalSeconds(d));
    == { UptimeTextByField(d); }
      Join(Pushed(days, Days) + Pushed(0, Hours) + Pushed(minutes, Minutes) + Pushed(seconds, Seconds), ", ");
    == { assert Pushed(days, Days) + Pushed(0, Hours) + Pushed(minutes, Minutes) + Pushed(seconds, Seconds) == [x, y, z]; }
      Join([x, y, z], ", ");
    == { JoinOfThree(x, y, z, ", "); }
      x + ", " + y + ", " + z;
    }
  }

  /** One day, one minute and one second. */
  lemma UptimeTextOf86461()
    ensures UptimeText(86461) == "1 days, 1 minutes, 1 seconds"
  {
    calc {
      UptimeText(86461);
    == { UptimeTextWithoutHours(1, 1, 1); }
      Segment(1, Days) + ", " + Segment(1, Minutes) + ", " + Segment(1, Seconds);
    == { OneDigitSegments(); }
      "1 days, 1 minutes, 1 seconds";
    }
  }

  /** A whole number of hours under a day prints as that one segment. */
  lemma UptimeTextOfWholeHours(hours: nat)
    requires 0 < hours < 24
    ensures UptimeText(hours * 3600) == Segment(hours, Hours)
  {
    var d := Duration(0, hours, 0, 0);
    var x := Segment(hours, Hours);
    calc {
      UptimeText(hours * 3600);
    == { assert TotalSeconds(d) == hours * 3600; }
      UptimeText(TotalSeconds(d));
    == { UptimeTextByField(d); }
      Join(Pushed(0, Days) + Pushed(hours, Hours) + Pushed(0, Minutes) + Pushed(0, Seconds), ", ");
    == { assert Pushed(0, Days) + Pushed(hours, Hours) + Pushed(0, Minutes) + Pushed(0, Seconds) == [x]; }
      Join([x], ", ");
    }
  }

  /** One hour. */
  lemma UptimeTextOf3600()
    ensures UptimeText(3600) == "1 hours"
  {
    calc {
      UptimeText(3600);
    == { UptimeTextOfWholeHours(1); }
      Segment(1, Hours);
    == { OneDigitSegments(); }
      "1 hours";
    }
  }
}
