/**
 * The choice of the time step in `run_fenics`: among the entries of the VTK
 * directory that are directories named `simulation_<time>`, the one with the
 * largest time. The listing is a sequence in the order `os.listdir` gives it;
 * the sort by time is stable, so among equal times the one listed last wins.
 */
module SimDirs {
  import opened Wrappers
  import opened TextScan

  /** One entry of the directory listing and whether it is a directory. */
  datatype Entry = Entry(name: string, isDir: bool)

  /** A `(float(time), name)` pair of the candidate list. */
  datatype Candidate = Candidate(time: real, name: string)

  const Prefix: string := "simulation_"

  predicate IsDigit(c: char)
  {
    '0' <= c <= '9'
  }

  predicate AllDigits(s: string)
  {
    forall i :: 0 <= i < |s| ==> IsDigit(s[i])
  }

  /** The number a run of decimal digits spells. */
  function Value(s: string): (n: nat)
    requires AllDigits(s)
    ensures s == [] ==> n == 0
    decreases |s|
  {
    if s == [] then 0
    else 10 * Value(s[..|s| - 1]) + ((s[|s| - 1] as int) - ('0' as int))
  }

  /** The value of the digits after a decimal point: 0.d1d2... */
  function Fraction(fp: string): (f: real)
    requires AllDigits(fp)
    ensures 0.0 <= f < 1.0
    ensures fp == [] ==> f == 0.0
  {
    if fp == [] then 0.0
    else ((((fp[0] as int) - ('0' as int)) as real) + Fraction(fp[1..])) / 10.0
  }

  /** `\d+(\.\d+)?` spelling the whole of g. */
  predicate IsDecimal(g: string)
  {
    var k := Find(g, 0, '.');
    0 < k && AllDigits(g[..k]) && (k == |g| || (k + 1 < |g| && AllDigits(g[k + 1..])))
  }

  /** `float(g)` for a decimal numeral, taken exactly. */
  function DecimalValue(g: string): (t: real)
    requires IsDecimal(g)
    ensures t >= 0.0
  {
    var k := Find(g, 0, '.');
    var whole := Value(g[..k]) as real;
    if k == |g| then whole
    else whole + Fraction(g[k + 1..])
  }

  /**
   * Group 1 of `^simulation_(\d+(\.\d+)?)$`: `$` matches at the end of the
   * name or just before a final newline.
   */
  function TimeText(name: string): (r: Option<string>)
    ensures r.Some? ==> IsDecimal(r.value)
    ensures r.Some? ==> name == Prefix + r.value || name == Prefix + r.value + "\n"
  {
    if |name| < |Prefix| || name[..|Prefix|] != Prefix then None
    else
      var rest := name[|Prefix|..];
      var g := if |rest| > 0 && rest[|rest| - 1] == '\n' then rest[..|rest| - 1] else rest;
      assert name == Prefix + rest;
      assert rest == g || rest == g + "\n";
      if IsDecimal(g) then Some(g) else None
  }

  /** The time of a directory name, or None when the pattern does not match. */
  function ParseTime(name: string): (r: Option<real>)
    ensures r.Some? <==> TimeText(name).Some?
    ensures r.Some? ==> r.value >= 0.0
  {
    match TimeText(name)
    case None => None
    case Some(g) => Some(DecimalValue(g))
  }

  /** A numeral with integer digits `ip` and, when `fp` is not empty, fractional digits `fp`. */
  function Numeral(ip: string, fp: string): string
  {
    if fp == [] then ip else ip + "." + fp
  }

  /** Every numeral is read back with its digits' value. */
  lemma NumeralValue(ip: string, fp: string)
    requires |ip| > 0 && AllDigits(ip) && AllDigits(fp)
    ensures IsDecimal(Numeral(ip, fp))
    ensures DecimalValue(Numeral(ip, fp))
         == (Value(ip) as real) + Fraction(fp)
  {
    if fp == [] {
      assert Numeral(ip, fp) == ip;
      IntegerNumeral(ip);
    } else {
      assert Numeral(ip, fp) == ip + "." + fp;
      FractionNumeral(ip, fp);
    }
  }

  /** A numeral without a fraction. */
  lemma IntegerNumeral(ip: string)
    requires |ip| > 0 && AllDigits(ip)
    ensures IsDecimal(ip) && DecimalValue(ip) == Value(ip) as real
  {
    FindAt(ip, 0, '.', |ip|);
    assert ip[..|ip|] == ip;
  }

  /** A numeral with a fraction. */
  lemma FractionNumeral(ip: string, fp: string)
    requires |ip| > 0 && AllDigits(ip) && |fp| > 0 && AllDigits(fp)
    ensures IsDecimal(ip + "." + fp)
    ensures DecimalValue(ip + "." + fp) == (Value(ip) as real) + Fraction(fp)
  {
    FractionParts(ip, fp);
  }

  /** The parts of `ip.fp` as the decimal scan sees them. */
  lemma FractionParts(ip: string, fp: string)
    requires |ip| > 0 && AllDigits(ip) && |fp| > 0 && AllDigits(fp)
    ensures var g := ip + "." + fp;
      Find(g, 0, '.') == |ip| && g[..|ip|] == ip && g[|ip| + 1..] == fp
  {
    var g := ip + "." + fp;
    assert forall m :: 0 <= m < |ip| ==> g[m] == ip[m];
    FindAt(g, 0, '.', |ip|);
    assert g[..|ip|] == ip;
    assert g[|ip| + 1..] == fp;
  }

  /** The directory named `simulation_<numeral>`, with or without a final newline, parses to its value. */
  lemma {:induction false} ParseTimeOfName(ip: string, fp: string, newline: bool)
    requires |ip| > 0 && AllDigits(ip) && AllDigits(fp)
    ensures var name := Prefix + Numeral(ip, fp) + (if newline then "\n" else "");
      ParseTime(name) == Some((Value(ip) as real) + Fraction(fp))
  {
    var g := Numeral(ip, fp);
    var name := Prefix + g + (if newline then "\n" else "");
    NumeralValue(ip, fp);
    assert name[..|Prefix|] == Prefix;
    var rest := name[|Prefix|..];
    assert rest == g + (if newline then "\n" else "");
    assert g[|g| - 1] != '\n' by {
      if fp == [] {
        assert IsDigit(ip[|ip| - 1]);
      } else {
        assert g[|g| - 1] == fp[|fp| - 1];
        assert IsDigit(fp[|fp| - 1]);
      }
    }
    var stripped := if |rest| > 0 && rest[|rest| - 1] == '\n' then rest[..|rest| - 1] else rest;
    if newline {
      assert rest[|rest| - 1] == '\n';
      assert rest[..|rest| - 1] == g;
    } else {
      assert rest[|rest| - 1] == g[|g| - 1];
    }
    assert stripped == g;
    assert TimeText(name) == Some(g);
  }

  /** `[(float(m.group(1)), d) for d in dirs if (m := pat.match(d))]` over the directories of the listing. */
  function Candidates(entries: seq<Entry>): (r: seq<Candidate>)
    ensures |r| <= |entries|
    ensures forall c :: c in r ==> exists e :: e in entries && e.isDir && e.name == c.name && ParseTime(e.name) == Some(c.time)
    decreases |entries|
  {
    if entries == [] then []
    else
      var e := entries[0];
      var rest := Candidates(entries[1..]);
      assert forall c :: c in rest ==> exists e' :: e' in entries && e'.isDir && e'.name == c.name && ParseTime(e'.name) == Some(c.time);
      if e.isDir && ParseTime(e.name).Some? then [Candidate(ParseTime(e.name).value, e.name)] + rest else rest
  }

  /** Every matching directory of the listing is a candidate. */
  lemma {:induction false} CandidatesComplete(entries: seq<Entry>, e: Entry)
    requires e in entries && e.isDir && ParseTime(e.name).Some?
    ensures Candidate(ParseTime(e.name).value, e.name) in Candidates(entries)
    decreases |entries|
  {
    if entries[0] != e {
      CandidatesComplete(entries[1..], e);
    }
  }

  /**
   * The candidates keep the listing's order: those of a concatenated listing
   * are the candidates of the first part followed by those of the second.
   */
  lemma {:induction false} CandidatesAppend(a: seq<Entry>, b: seq<Entry>)
    ensures Candidates(a + b) == Candidates(a) + Candidates(b)
    decreases |a|
  {
    if a != [] {
      assert (a + b)[0] == a[0] && (a + b)[1..] == a[1..] + b;
      CandidatesAppend(a[1..], b);
    } else {
      assert a + b == b;
    }
  }

  predicate SortedByTime(s: seq<Candidate>)
  {
    forall i, j :: 0 <= i < j < |s| ==> s[i].time <= s[j].time
  }

  /** Insertion into a list sorted by time, after every element of equal or smaller time. */
  function Insert(s: seq<Candidate>, x: Candidate): (r: seq<Candidate>)
    ensures |r| == |s| + 1
    ensures multiset(r) == multiset(s) + multiset{x}
    decreases |s|
  {
    if s == [] || s[|s| - 1].time <= x.time then s + [x]
    else
      assert s == s[..|s| - 1] + [s[|s| - 1]];
      Insert(s[..|s| - 1], x) + [s[|s| - 1]]
  }

  /** `times.sort(key=lambda x: x[0])`: a stable sort by time. */
  function SortByTime(s: seq<Candidate>): (r: seq<Candidate>)
    ensures |r| == |s|
    ensures multiset(r) == multiset(s)
    decreases |s|
  {
    if s == [] then []
    else
      assert s == s[..|s| - 1] + [s[|s| - 1]];
      Insert(SortByTime(s[..|s| - 1]), s[|s| - 1])
  }

  /** Insertion keeps the list sorted. */
  lemma {:induction false} InsertSorted(s: seq<Candidate>, x: Candidate)
    requires SortedByTime(s)
    ensures SortedByTime(Insert(s, x))
    decreases |s|
  {
    if s != [] && s[|s| - 1].time > x.time {
      var init := s[..|s| - 1];
      var last := s[|s| - 1];
      InsertSorted(init, x);
      var r := Insert(init, x);
      forall i | 0 <= i < |r|
        ensures r[i].time <= last.time
      {
        assert r[i] in multiset(r);
        if r[i] != x {
          assert r[i] in init;
        }
      }
    }
  }

  /** The sort's result is sorted by time. */
  lemma {:induction false} SortSorted(s: seq<Candidate>)
    ensures SortedByTime(SortByTime(s))
    decreases |s|
  {
    if s != [] {
      SortSorted(s[..|s| - 1]);
      InsertSorted(SortByTime(s[..|s| - 1]), s[|s| - 1]);
    }
  }

  /**
   * Reference definition of the pick: the position of a largest time, the
   * last one among equals.
   */
  function LatestIndex(s: seq<Candidate>): (i: nat)
    requires |s| > 0
    ensures i < |s|
    ensures forall j :: 0 <= j < |s| ==> s[j].time <= s[i].time
    ensures forall j :: i < j < |s| ==> s[j].time < s[i].time
    decreases |s|
  {
    if |s| == 1 then 0
    else
      var i := LatestIndex(s[..|s| - 1]);
      assert forall j :: 0 <= j < |s| - 1 ==> s[..|s| - 1][j] == s[j];
      if s[i].time <= s[|s| - 1].time then |s| - 1 else i
  }

  /** The last element of the sorted list is the last-listed candidate of largest time. */
  lemma {:induction false} SortLast(s: seq<Candidate>)
    requires |s| > 0
    ensures SortByTime(s)[|s| - 1] == s[LatestIndex(s)]
    decreases |s|
  {
    var init, x := s[..|s| - 1], s[|s| - 1];
    var sorted := SortByTime(init);
    assert SortByTime(s) == Insert(sorted, x);
    InsertLast(sorted, x);
    if |s| > 1 {
      SortLast(init);
      assert init[LatestIndex(init)] == s[LatestIndex(init)];
    }
  }

  /** The last element after an insertion: x, unless the list ends with a larger time. */
  lemma InsertLast(s: seq<Candidate>, x: Candidate)
    ensures Insert(s, x)[|s|] == if s == [] || s[|s| - 1].time <= x.time then x else s[|s| - 1]
  {
  }

  /**
   * `times[-1]` after the sort, or None when no directory matches (the
   * function then returns early).
   */
  function LatestSimulation(entries: seq<Entry>): (r: Option<Candidate>)
    ensures r.None? <==> forall e :: e in entries && e.isDir ==> ParseTime(e.name).None?
    ensures r.Some? ==> r.value in Candidates(entries)
    ensures r.Some? ==> forall c :: c in Candidates(entries) ==> c.time <= r.value.time
  {
    var times := Candidates(entries);
    if times == [] then
      assert forall e :: e in entries && e.isDir ==> ParseTime(e.name).None? by {
        forall e | e in entries && e.isDir && ParseTime(e.name).Some?
          ensures false
        {
          CandidatesComplete(entries, e);
        }
      }
      None
    else
      SortLast(times);
      Some(SortByTime(times)[|times| - 1])
  }

  /** The chosen directory is a directory of the listing, and its name carries the chosen time. */
  lemma LatestIsListed(entries: seq<Entry>)
    requires LatestSimulation(entries).Some?
    ensures var c := LatestSimulation(entries).value;
      Entry(c.name, true) in entries && ParseTime(c.name) == Some(c.time)
  {
    var c := LatestSimulation(entries).value;
    var e :| e in entries && e.isDir && e.name == c.name && ParseTime(e.name) == Some(c.time);
    assert e == Entry(c.name, true);
  }

  /** Among candidates of the largest time, the one listed last is chosen. */
  lemma LatestAmongTies(entries: seq<Entry>)
    requires LatestSimulation(entries).Some?
    ensures var times := Candidates(entries);
      |times| > 0 && LatestSimulation(entries).value == times[LatestIndex(times)]
  {
    var times := Candidates(entries);
    SortLast(times);
  }
}
