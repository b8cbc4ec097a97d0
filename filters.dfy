/**
  The query fragments `dumpMedia` appends to its metadata lookup: the thread
  filter `AND thread._id IN (...)` and the date filter
  `AND (date_received BETWEEN s AND e OR ...)`.
*/
module Filters {
  import opened Wrappers
  import opened Text

  // ---------------------------------------------------------------------------
  // Thread filter
  // ---------------------------------------------------------------------------

  const ThreadClausePrefix: string := " AND thread._id IN ("

  /** The ids in order, printed in decimal and separated by ','. */
  function JoinIds(ids: seq<int>): string
  {
    if ids == [] then ""
    else if |ids| == 1 then IntToString(ids[0])
    else JoinIds(ids[..|ids| - 1]) + "," + IntToString(ids[|ids| - 1])
  }

  /** Fragment added for the requested threads; nothing for an empty list. */
  function ThreadClause(threads: seq<int>): string
  {
    if threads == [] then "" else ThreadClausePrefix + JoinIds(threads) + ")"
  }

  /** What the id loop has appended after `i` of `|threads|` ids. */
  function IdsWritten(threads: seq<int>, i: nat): string
    requires i <= |threads|
  {
    if i == 0 then ""
    else JoinIds(threads[..i]) + (if i == |threads| then ")" else ",")
  }

  lemma IdsWrittenStep(threads: seq<int>, i: nat)
    requires i < |threads|
    ensures IdsWritten(threads, i + 1)
         == IdsWritten(threads, i) + (IntToString(threads[i]) + (if i == |threads| - 1 then ")" else ","))
  {
    assert threads[..i + 1][..i] == threads[..i];
  }

  /** Appends the thread filter to `query`, one id at a time. */
  method AppendThreadClause(query: string, threads: seq<int>) returns (q: string)
    ensures q == query + ThreadClause(threads)
  {
    q := query;
    if |threads| > 0 {
      q := q + ThreadClausePrefix;
      var i := 0;
      while i < |threads|
        invariant 0 <= i <= |threads|
        invariant q == query + ThreadClausePrefix + IdsWritten(threads, i)
      {
        var piece := IntToString(threads[i]) + (if i == |threads| - 1 then ")" else ",");
        IdsWrittenStep(threads, i);
        Associative(query + ThreadClausePrefix, IdsWritten(threads, i), piece);
        q := q + piece;
        i := i + 1;
      }
      assert threads[..i] == threads;
      Associative(ThreadClausePrefix, JoinIds(threads), ")");
      Associative(query, ThreadClausePrefix, JoinIds(threads) + ")");
    }
  }

  /** Reads the ids back from a comma-separated list. */
  function ParseIds(fields: seq<string>): Option<seq<int>>
  {
    if fields == [] then Some([])
    else
      match (ParseIds(fields[..|fields| - 1]), ParseInt(fields[|fields| - 1]))
      case (Some(ids), Some(id)) => Some(ids + [id])
      case _ => None
  }

  /** Recovers the thread list from a thread filter fragment. */
  function DecodeThreadClause(c: string): Option<seq<int>>
  {
    if c == "" then Some([])
    else if |c| > |ThreadClausePrefix| && c[..|ThreadClausePrefix|] == ThreadClausePrefix && c[|c| - 1] == ')'
    then ParseIds(Fields(c[|ThreadClausePrefix|..|c| - 1], ','))
    else None
  }

  lemma ParseIdsSnoc(fields: seq<string>, field: string, ids: seq<int>, id: int)
    requires ParseIds(fields) == Some(ids) && ParseInt(field) == Some(id)
    ensures ParseIds(fields + [field]) == Some(ids + [id])
  {
    assert (fields + [field])[..|fields|] == fields;
  }

  lemma {:induction false} JoinIdsDecodes(ids: seq<int>)
    requires ids != []
    ensures ParseIds(Fields(JoinIds(ids), ',')) == Some(ids)
    decreases |ids|
  {
    var init, last := ids[..|ids| - 1], ids[|ids| - 1];
    assert ids == init + [last];
    IntToStringPunctuationFree(last, ',');
    IntRoundTrip(last);
    if init == [] {
      FieldsSingle(IntToString(last), ',');
      ParseIdsSnoc([], IntToString(last), [], last);
    } else {
      JoinIdsDecodes(init);
      FieldsAppend(JoinIds(init), ',', IntToString(last));
      ParseIdsSnoc(Fields(JoinIds(init), ','), IntToString(last), init, last);
    }
  }

  /** The fragment determines the thread list: ids, their order and their count. */
  lemma ThreadClauseRoundTrip(threads: seq<int>)
    ensures DecodeThreadClause(ThreadClause(threads)) == Some(threads)
  {
    if threads != [] {
      var c := ThreadClause(threads);
      var body := JoinIds(threads);
      assert c[..|ThreadClausePrefix|] == ThreadClausePrefix;
      assert c[|ThreadClausePrefix|..|c| - 1] == body;
      JoinIdsDecodes(threads);
    }
  }

  lemma {:induction false} JoinIdsPunctuation(ids: seq<int>)
    ensures Occurrences(JoinIds(ids), ',') == if ids == [] then 0 else |ids| - 1
    ensures Occurrences(JoinIds(ids), '(') == 0
    ensures Occurrences(JoinIds(ids), ')') == 0
    decreases |ids|
  {
    if |ids| == 1 {
      IntToStringPunctuationFree(ids[0], ',');
      IntToStringPunctuationFree(ids[0], '(');
      IntToStringPunctuationFree(ids[0], ')');
    } else if |ids| > 1 {
      var init, last := ids[..|ids| - 1], ids[|ids| - 1];
      JoinIdsPunctuation(init);
      forall c | c == ',' || c == '(' || c == ')'
        ensures Occurrences(JoinIds(ids), c) == Occurrences(JoinIds(init), c) + (if c == ',' then 1 else 0)
      {
        IntToStringPunctuationFree(last, c);
        OccurrencesConcat(JoinIds(init) + ",", IntToString(last), c);
        OccurrencesConcat(JoinIds(init), ",", c);
        OccurrencesSingle(',', c);
      }
    }
  }

  lemma ThreadClausePrefixPunctuation(c: char)
    requires c == ',' || c == '(' || c == ')'
    ensures Occurrences(ThreadClausePrefix, c) == if c == '(' then 1 else 0
  {
    var words := " AND thread._id IN ";
    assert ThreadClausePrefix == words + "(";
    assert c !in words;
    OccurrencesAbsent(words, c);
    OccurrencesConcat(words, "(", c);
    OccurrencesSingle('(', c);
  }

  /**
    A non-empty thread list gives " AND thread._id IN (" followed by the ids,
    with one '(' and one ')' and |threads| - 1 commas; an empty list gives nothing.
  */
  lemma ThreadClauseShape(threads: seq<int>)
    ensures threads == [] <==> ThreadClause(threads) == ""
    ensures threads != [] ==>
      |ThreadClause(threads)| > |ThreadClausePrefix| &&
      ThreadClause(threads)[..|ThreadClausePrefix|] == ThreadClausePrefix
    ensures threads != [] ==>
      Occurrences(ThreadClause(threads), '(') == 1 &&
      Occurrences(ThreadClause(threads), ')') == 1 &&
      Occurrences(ThreadClause(threads), ',') == |threads| - 1
  {
    if threads != [] {
      JoinIdsPunctuation(threads);
      forall c | c == ',' || c == '(' || c == ')'
        ensures Occurrences(ThreadClause(threads), c)
             == Occurrences(ThreadClausePrefix, c) + Occurrences(JoinIds(threads), c) + (if c == ')' then 1 else 0)
      {
        OccurrencesConcat(ThreadClausePrefix + JoinIds(threads), ")", c);
        OccurrencesConcat(ThreadClausePrefix, JoinIds(threads), c);
        OccurrencesSingle(')', c);
        ThreadClausePrefixPunctuation(c);
      }
      ThreadClausePrefixPunctuation('(');
      ThreadClausePrefixPunctuation(')');
      ThreadClausePrefixPunctuation(',');
    }
  }

  // ---------------------------------------------------------------------------
  // Date filter
  // ---------------------------------------------------------------------------

  /**
    What the date parser reports for one string: milliseconds since the epoch
    (-1 when the string does not parse) and whether the string had only
    second precision, so that an end bound must be widened to the whole second.
  */
  datatype DateParse = DateParse(msecs: int, needsRounding: bool)

  /** A validated range of `date_received` values, bounds included. */
  datatype DateRange = DateRange(start: int, end: int)

  /** Consecutive strings of an even-length list, taken two at a time. */
  function PairUp(list: seq<string>): (ps: seq<(string, string)>)
    requires |list| % 2 == 0
    ensures |ps| == |list| / 2
    ensures forall k :: 0 <= k < |ps| ==> ps[k] == (list[2 * k], list[2 * k + 1])
    decreases |list|
  {
    if list == [] then []
    else PairUp(list[..|list| - 2]) + [(list[|list| - 2], list[|list| - 1])]
  }

  /** The (start, end) string pairs: none at all unless the list has even length. */
  function Pairs(list: seq<string>): seq<(string, string)>
  {
    if |list| % 2 == 0 then PairUp(list) else []
  }

  /** Builds the list of (start, end) string pairs, two entries at a time. */
  method PairDateRanges(list: seq<string>) returns (ranges: seq<(string, string)>)
    ensures ranges == Pairs(list)
  {
    ranges := [];
    if |list| % 2 == 0 {
      var i := 0;
      while i < |list|
        invariant 0 <= i <= |list| && i % 2 == 0
        invariant ranges == PairUp(list[..i])
      {
        assert list[..i + 2][..i] == list[..i];
        ranges := ranges + [(list[i], list[i + 1])];
        i := i + 2;
      }
      assert list[..i] == list;
    }
  }

  /**
    The range a pair stands for, or None when either bound fails to parse or
    the end lies before the start. The start bound is parsed without asking
    for the precision flag; an end bound with second precision is widened by 999 ms.
  */
  function Accept(p: (string, string), parse: string -> DateParse): Option<DateRange>
  {
    var startrange := parse(p.0).msecs;
    var endrange := parse(p.1).msecs;
    if startrange == -1 || endrange == -1 || endrange < startrange then None
    else Some(DateRange(startrange, if parse(p.1).needsRounding then endrange + 999 else endrange))
  }

  /** The accepted ranges, in list order. */
  function Accepted(ps: seq<(string, string)>, parse: string -> DateParse): seq<DateRange>
  {
    if ps == [] then []
    else
      Accepted(ps[..|ps| - 1], parse)
      + (match Accept(ps[|ps| - 1], parse) case None => [] case Some(r) => [r])
  }

  /** The SQL condition for one range. */
  function RangeCondition(r: DateRange): string
  {
    "date_received BETWEEN " + IntToString(r.start) + " AND " + IntToString(r.end)
  }

  /** The range conditions joined by " OR " behind a leading " AND (", not yet closed. */
  function Disjunction(rs: seq<DateRange>): (d: string)
    ensures d == "" <==> rs == []
  {
    if rs == [] then ""
    else if |rs| == 1 then " AND (" + RangeCondition(rs[0])
    else Disjunction(rs[..|rs| - 1]) + " OR " + RangeCondition(rs[|rs| - 1])
  }

  /** The date filter as intended: the disjunction, closed once, or nothing. */
  function DateClause(list: seq<string>, parse: string -> DateParse): string
  {
    var rs := Accepted(Pairs(list), parse);
    if rs == [] then "" else Disjunction(rs) + ")"
  }

  /**
    The date filter as the loop writes it: the ')' is added only while
    handling the last pair, so it is missing when that pair is rejected.
  */
  function DateClauseAsWritten(list: seq<string>, parse: string -> DateParse): string
  {
    var ps := Pairs(list);
    Disjunction(Accepted(ps, parse)) + ClosingAsWritten(ps, parse)
  }

  /** The ')' the as-written loop leaves at the end: only if the last pair was accepted. */
  function ClosingAsWritten(ps: seq<(string, string)>, parse: string -> DateParse): string
  {
    if ps != [] && Accept(ps[|ps| - 1], parse).Some? then ")" else ""
  }

  lemma AcceptedStep(ps: seq<(string, string)>, i: nat, parse: string -> DateParse)
    requires i < |ps|
    ensures Accepted(ps[..i + 1], parse)
         == Accepted(ps[..i], parse) + (match Accept(ps[i], parse) case None => [] case Some(r) => [r])
  {
    assert ps[..i + 1][..i] == ps[..i];
  }

  lemma DisjunctionStep(rs: seq<DateRange>, r: DateRange)
    ensures Disjunction(rs + [r]) == Disjunction(rs) + ((if rs == [] then " AND (" else " OR ") + RangeCondition(r))
  {
    assert (rs + [r])[..|rs|] == rs;
    if rs == [] {
      assert rs + [r] == [r];
    } else {
      Associative(Disjunction(rs), " OR ", RangeCondition(r));
    }
  }

  /**
    One pass of the range loop over pair `i`: the bounds it computes and the
    condition text it appends agree with `Accept` and `RangeCondition`.
  */
  lemma {:induction false} RangeLoopStep(ps: seq<(string, string)>, i: nat, parse: string -> DateParse, clause: string)
    requires i < |ps|
    requires clause == Disjunction(Accepted(ps[..i], parse))
    ensures Accept(ps[i], parse).None? ==> Accepted(ps[..i + 1], parse) == Accepted(ps[..i], parse)
    ensures Accept(ps[i], parse).Some? ==>
      Disjunction(Accepted(ps[..i + 1], parse))
        == clause + ((if clause == "" then " AND (" else " OR ") + RangeCondition(Accept(ps[i], parse).value))
  {
    AcceptedStep(ps, i, parse);
    match Accept(ps[i], parse)
    case None =>
    case Some(r) =>
      DisjunctionStep(Accepted(ps[..i], parse), r);
  }

  /**
    The range loop: parses each pair, skips the rejected ones, overwrites the
    accepted ones by their numeric bounds and builds the unclosed disjunction.
  */
  method RangeConditions(pairs: seq<(string, string)>, parse: string -> DateParse) returns (clause: string)
    ensures clause == Disjunction(Accepted(pairs, parse))
  {
    var ranges := pairs;
    clause := "";
    var i := 0;
    while i < |ranges|
      invariant 0 <= i <= |ranges| == |pairs|
      invariant ranges[i..] == pairs[i..]
      invariant clause == Disjunction(Accepted(pairs[..i], parse))
    {
      assert ranges[i] == pairs[i];
      RangeLoopStep(pairs, i, parse, clause);
      var startrange := parse(ranges[i].0).msecs;
      var endrange := parse(ranges[i].1).msecs;
      var needrounding := parse(ranges[i].1).needsRounding;
      if startrange == -1 || endrange == -1 || endrange < startrange {
        i := i + 1;
        continue;
      }
      if needrounding {
        endrange := endrange + 999;
      }
      assert Accept(pairs[i], parse) == Some(DateRange(startrange, endrange));
      ranges := ranges[i := (IntToString(startrange), IntToString(endrange))];
      var condition := "date_received BETWEEN " + ranges[i].0 + " AND " + ranges[i].1;
      assert condition == RangeCondition(DateRange(startrange, endrange));
      clause := clause + ((if clause == "" then " AND (" else " OR ") + condition);
      i := i + 1;
    }
    assert pairs[..i] == pairs;
  }

  /** At the last index the pairs handled so far are all of them, and the closing depends on that pair alone. */
  lemma AsWrittenLastPair(pairs: seq<(string, string)>, i: nat, parse: string -> DateParse)
    requires i < |pairs|
    ensures i + 1 == |pairs| ==>
      pairs[..i + 1] == pairs &&
      ClosingAsWritten(pairs, parse) == (if Accept(pairs[i], parse).Some? then ")" else "")
  {
  }

  /**
    The range loop exactly as written: the ')' is appended while handling the
    pair at the last index, and only if that pair was accepted.
  */
  method RangeConditionsAsWritten(pairs: seq<(string, string)>, parse: string -> DateParse) returns (clause: string)
    ensures clause == Disjunction(Accepted(pairs, parse)) + ClosingAsWritten(pairs, parse)
  {
    var ranges := pairs;
    clause := "";
    var i := 0;
    while i < |ranges|
      invariant 0 <= i <= |ranges| == |pairs|
      invariant ranges[i..] == pairs[i..]
      invariant i < |pairs| ==> clause == Disjunction(Accepted(pairs[..i], parse))
      invariant i == |pairs| ==> clause == Disjunction(Accepted(pairs, parse)) + ClosingAsWritten(pairs, parse)
    {
      assert ranges[i] == pairs[i];
      RangeLoopStep(pairs, i, parse, clause);
      AsWrittenLastPair(pairs, i, parse);
      var startrange := parse(ranges[i].0).msecs;
      var endrange := parse(ranges[i].1).msecs;
      var needrounding := parse(ranges[i].1).needsRounding;
      if startrange == -1 || endrange == -1 || endrange < startrange {
        i := i + 1;
        continue;
      }
      if needrounding {
        endrange := endrange + 999;
      }
      assert Accept(pairs[i], parse) == Some(DateRange(startrange, endrange));
      ranges := ranges[i := (IntToString(startrange), IntToString(endrange))];
      var condition := "date_received BETWEEN " + ranges[i].0 + " AND " + ranges[i].1;
      assert condition == RangeCondition(DateRange(startrange, endrange));
      clause := clause + ((if clause == "" then " AND (" else " OR ") + condition);
      if i == |ranges| - 1 {
        clause := clause + ")";
      }
      i := i + 1;
    }
    if pairs == [] {
      assert clause == "";
    }
  }

  /**
    Appends the date filter to `query`, with the closing ')' written once
    after the loop whenever some range was accepted.
  */
  method AppendDateClause(query: string, list: seq<string>, parse: string -> DateParse) returns (q: string)
    ensures q == query + DateClause(list, parse)
  {
    q := query;
    if |list| > 0 {
      var ranges := PairDateRanges(list);
      var clause := RangeConditions(ranges, parse);
      if clause != "" {
        clause := clause + ")";
      }
      q := q + clause;
    } else {
      assert Pairs(list) == [];
    }
  }

  /** The date filter as the source appends it (see `RangeConditionsAsWritten`). */
  method AppendDateClauseAsWritten(query: string, list: seq<string>, parse: string -> DateParse) returns (q: string)
    ensures q == query + DateClauseAsWritten(list, parse)
  {
    q := query;
    if |list| > 0 {
      var ranges := PairDateRanges(list);
      var clause := RangeConditionsAsWritten(ranges, parse);
      q := q + clause;
    } else {
      assert Pairs(list) == [];
    }
  }

  // ---------------------------------------------------------------------------
  // Properties of the date filter
  // ---------------------------------------------------------------------------

  /** `BETWEEN` includes both bounds. */
  predicate Covers(r: DateRange, t: int) { r.start <= t <= r.end }

  /** An odd number of date strings pairs up to nothing, so no date filter is added. */
  lemma OddDateListAddsNothing(list: seq<string>, parse: string -> DateParse)
    requires |list| % 2 == 1
    ensures Pairs(list) == []
    ensures DateClause(list, parse) == "" && DateClauseAsWritten(list, parse) == ""
  {
  }

  /**
    A pair is accepted exactly when both bounds parse and the end is not before
    the start; then the start is kept and the end is widened by exactly 999 ms
    when it had second precision, so the range stays non-empty.
  */
  lemma AcceptBounds(p: (string, string), parse: string -> DateParse)
    ensures Accept(p, parse).Some?
        <==> parse(p.0).msecs != -1 && parse(p.1).msecs != -1 && parse(p.0).msecs <= parse(p.1).msecs
    ensures Accept(p, parse).Some? ==>
      var r := Accept(p, parse).value;
      r.start == parse(p.0).msecs &&
      r.end - parse(p.1).msecs == (if parse(p.1).needsRounding then 999 else 0) &&
      r.start <= r.end
  {
  }

  /**
    With second precision on the end bound, every millisecond of that final
    second is inside the accepted range, and the next millisecond is not.
  */
  lemma WideningCoversFinalSecond(p: (string, string), parse: string -> DateParse, t: int)
    requires Accept(p, parse).Some? && parse(p.1).needsRounding
    ensures parse(p.1).msecs <= t <= parse(p.1).msecs + 999 ==> Covers(Accept(p, parse).value, t)
    ensures !Covers(Accept(p, parse).value, parse(p.1).msecs + 1000)
  {
  }

  lemma {:induction false} AcceptedConcat(a: seq<(string, string)>, b: seq<(string, string)>, parse: string -> DateParse)
    ensures Accepted(a + b, parse) == Accepted(a, parse) + Accepted(b, parse)
    decreases |b|
  {
    if b == [] {
      assert a + b == a;
    } else {
      var b0 := b[..|b| - 1];
      assert (a + b)[..|a + b| - 1] == a + b0;
      AcceptedConcat(a, b0, parse);
    }
  }

  /** A rejected pair contributes nothing: dropping it leaves the accepted ranges unchanged. */
  lemma RejectedPairContributesNothing(ps: seq<(string, string)>, i: nat, parse: string -> DateParse)
    requires i < |ps| && Accept(ps[i], parse).None?
    ensures Accepted(ps, parse) == Accepted(ps[..i] + ps[i + 1..], parse)
  {
    var before, after := ps[..i], ps[i + 1..];
    assert ps == before + [ps[i]] + after;
    assert Accepted([ps[i]], parse) == [] by {
      assert [ps[i]][..0] == [];
    }
    AcceptedConcat(before, [ps[i]], parse);
    assert Accepted(before + [ps[i]], parse) == Accepted(before, parse);
    AcceptedConcat(before + [ps[i]], after, parse);
    AcceptedConcat(before, after, parse);
  }

  /** The accepted ranges are exactly the ranges of the accepted pairs. */
  lemma {:induction false} AcceptedMembers(ps: seq<(string, string)>, parse: string -> DateParse, r: DateRange)
    ensures r in Accepted(ps, parse) <==> exists i :: 0 <= i < |ps| && Accept(ps[i], parse) == Some(r)
    decreases |ps|
  {
    if ps != [] {
      var init := ps[..|ps| - 1];
      AcceptedMembers(init, parse, r);
      var last := match Accept(ps[|ps| - 1], parse) case None => [] case Some(x) => [x];
      assert Accepted(ps, parse) == Accepted(init, parse) + last;
      assert r in last <==> Accept(ps[|ps| - 1], parse) == Some(r);
      if exists i :: 0 <= i < |init| && Accept(init[i], parse) == Some(r) {
        var i :| 0 <= i < |init| && Accept(init[i], parse) == Some(r);
        assert ps[i] == init[i];
      }
      if exists i :: 0 <= i < |ps| && Accept(ps[i], parse) == Some(r) {
        var i :| 0 <= i < |ps| && Accept(ps[i], parse) == Some(r);
        if i < |init| {
          assert init[i] == ps[i];
        }
      }
    }
  }

  /** Every accepted range is non-empty (start <= end). */
  lemma {:induction false} AcceptedRangesOrdered(ps: seq<(string, string)>, parse: string -> DateParse)
    ensures forall r :: r in Accepted(ps, parse) ==> r.start <= r.end
  {
    forall r | r in Accepted(ps, parse) ensures r.start <= r.end {
      AcceptedMembers(ps, parse, r);
      var i :| 0 <= i < |ps| && Accept(ps[i], parse) == Some(r);
      AcceptBounds(ps[i], parse);
    }
  }

  lemma RangeConditionPunctuation(r: DateRange, c: char)
    requires c == '(' || c == ')'
    ensures Occurrences(RangeCondition(r), c) == 0
  {
    var a, b := "date_received BETWEEN ", " AND ";
    assert c !in a && c !in b;
    OccurrencesAbsent(a, c);
    OccurrencesAbsent(b, c);
    IntToStringPunctuationFree(r.start, c);
    IntToStringPunctuationFree(r.end, c);
    OccurrencesConcat(a, IntToString(r.start), c);
    OccurrencesConcat(a + IntToString(r.start), b, c);
    OccurrencesConcat(a + IntToString(r.start) + b, IntToString(r.end), c);
  }

  /** The disjunction opens one '(' (if any range exists) and closes none. */
  lemma {:induction false} DisjunctionPunctuation(rs: seq<DateRange>, c: char)
    requires c == '(' || c == ')'
    ensures Occurrences(Disjunction(rs), c) == if rs != [] && c == '(' then 1 else 0
    decreases |rs|
  {
    if |rs| == 1 {
      var opening := " AND ";
      assert " AND (" == opening + "(";
      assert c !in opening;
      OccurrencesAbsent(opening, c);
      OccurrencesConcat(opening, "(", c);
      OccurrencesSingle('(', c);
      OccurrencesConcat(" AND (", RangeCondition(rs[0]), c);
      RangeConditionPunctuation(rs[0], c);
    } else if |rs| > 1 {
      var init := rs[..|rs| - 1];
      DisjunctionPunctuation(init, c);
      assert c !in " OR ";
      OccurrencesAbsent(" OR ", c);
      RangeConditionPunctuation(rs[|rs| - 1], c);
      OccurrencesConcat(Disjunction(init), " OR ", c);
      OccurrencesConcat(Disjunction(init) + " OR ", RangeCondition(rs[|rs| - 1]), c);
    }
  }

  /**
    The date filter is empty exactly when no range was accepted; otherwise it
    opens with " AND (", ends with ")" and its parentheses balance.
  */
  lemma DateClauseShape(list: seq<string>, parse: string -> DateParse)
    ensures DateClause(list, parse) == "" <==> Accepted(Pairs(list), parse) == []
    ensures Occurrences(DateClause(list, parse), '(') == Occurrences(DateClause(list, parse), ')')
    ensures DateClause(list, parse) != "" ==>
      DateClause(list, parse)[..6] == " AND (" && DateClause(list, parse)[|DateClause(list, parse)| - 1] == ')'
  {
    var rs := Accepted(Pairs(list), parse);
    if rs != [] {
      DisjunctionPunctuation(rs, '(');
      DisjunctionPunctuation(rs, ')');
      OccurrencesConcat(Disjunction(rs), ")", '(');
      OccurrencesConcat(Disjunction(rs), ")", ')');
      OccurrencesSingle(')', '(');
      OccurrencesSingle(')', ')');
      DisjunctionOpens(rs);
    }
  }

  lemma {:induction false} DisjunctionOpens(rs: seq<DateRange>)
    requires rs != []
    ensures |Disjunction(rs)| >= 6 && Disjunction(rs)[..6] == " AND ("
    decreases |rs|
  {
    if |rs| > 1 {
      DisjunctionOpens(rs[..|rs| - 1]);
    }
  }

  /** An accepted last pair gives the last of the accepted ranges. */
  lemma LastAcceptedIsListed(ps: seq<(string, string)>, parse: string -> DateParse)
    requires ps != [] && Accept(ps[|ps| - 1], parse).Some?
    ensures var rs := Accepted(ps, parse);
      rs != [] && rs[|rs| - 1] == Accept(ps[|ps| - 1], parse).value
  {
  }

  /**
    The loop as written agrees with the intended clause whenever the last pair
    is accepted or no pair is.
  */
  lemma AsWrittenAgreesUnlessLastRejected(list: seq<string>, parse: string -> DateParse)
    requires var ps := Pairs(list);
      (ps != [] && Accept(ps[|ps| - 1], parse).Some?) || Accepted(ps, parse) == []
    ensures DateClauseAsWritten(list, parse) == DateClause(list, parse)
  {
    var ps := Pairs(list);
    if ps != [] && Accept(ps[|ps| - 1], parse).Some? {
      LastAcceptedIsListed(ps, parse);
    }
  }

  /**
    When some pair is accepted but the last one is rejected, the loop as
    written opens a parenthesis it never closes.
  */
  lemma AsWrittenUnclosedWhenLastRejected(list: seq<string>, parse: string -> DateParse)
    requires var ps := Pairs(list);
      ps != [] && Accept(ps[|ps| - 1], parse).None? && Accepted(ps, parse) != []
    ensures Occurrences(DateClauseAsWritten(list, parse), '(') == 1
    ensures Occurrences(DateClauseAsWritten(list, parse), ')') == 0
  {
    var rs := Accepted(Pairs(list), parse);
    assert DateClauseAsWritten(list, parse) == Disjunction(rs) + "";
    assert Disjunction(rs) + "" == Disjunction(rs);
    DisjunctionPunctuation(rs, '(');
    DisjunctionPunctuation(rs, ')');
  }

  /**
    A concrete input: two ranges, the second inverted (its end before its
    start). For any parser that reads both January dates and places
    2023-02-10 after 2023-02-01, as every date parser does, the test
    `endrange < startrange` rejects the second pair; the loop as written then
    yields an unbalanced fragment, while the intended one is closed.
  */
  lemma UnclosedDateClauseExample(parse: string -> DateParse)
    requires parse("2023-01-01").msecs != -1 && parse("2023-01-31").msecs != -1
    requires parse("2023-01-01").msecs <= parse("2023-01-31").msecs
    requires parse("2023-02-01").msecs < parse("2023-02-10").msecs
    ensures var list := ["2023-01-01", "2023-01-31", "2023-02-10", "2023-02-01"];
      Occurrences(DateClauseAsWritten(list, parse), '(') == 1 &&
      Occurrences(DateClauseAsWritten(list, parse), ')') == 0 &&
      Occurrences(DateClause(list, parse), ')') == 1
  {
    var list := ["2023-01-01", "2023-01-31", "2023-02-10", "2023-02-01"];
    var ps := Pairs(list);
    assert ps == [("2023-01-01", "2023-01-31"), ("2023-02-10", "2023-02-01")];
    var january := Accept(ps[0], parse).value;
    assert Accept(ps[1], parse).None?;
    assert ps[..|ps| - 1] == [ps[0]] && [ps[0]][..0] == [];
    assert Accepted([ps[0]], parse) == [january];
    assert Accepted(ps, parse) == [january];
    AsWrittenUnclosedWhenLastRejected(list, parse);
    DateClauseShape(list, parse);
    DisjunctionPunctuation(Accepted(ps, parse), '(');
    OccurrencesConcat(Disjunction(Accepted(ps, parse)), ")", '(');
    OccurrencesSingle(')', '(');
  }

  /** Dropping a rejected pair leaves the disjunction, and so the intended clause, as it was. */
  lemma RejectedPairLeavesDisjunction(ps: seq<(string, string)>, i: nat, parse: string -> DateParse)
    requires i < |ps| && Accept(ps[i], parse).None?
    ensures Disjunction(Accepted(ps, parse)) == Disjunction(Accepted(ps[..i] + ps[i + 1..], parse))
  {
    RejectedPairContributesNothing(ps, i, parse);
  }
}
