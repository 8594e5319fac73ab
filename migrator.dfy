/** The SQL migrator of the app package: migration numbers parsed from file
    names, `Apply` running every ".up.sql" file in ascending number order
    and stopping at the first failure, and `Rollback` running the one
    ".down.sql" file with the highest number. The migrations directory and
    the database are oracles: a directory listing with file contents, and a
    database that refuses a fixed set of scripts and logs the ones it runs. */
module Migrations {
  import opened Wrappers

  const MaxInt64: int := 0x7FFF_FFFF_FFFF_FFFF
  const MinInt64: int := -0x8000_0000_0000_0000
  const MaxUint64: int := 0xFFFF_FFFF_FFFF_FFFF

  const UpSuffix: string := ".up.sql"
  const DownSuffix: string := ".down.sql"

  // ---------------------------------------------------------------------
  // getMigrationNumber

  /** The first element of strings.Split(name, "_"): the text before the
      first underscore, or all of it when there is none. */
  function BeforeUnderscore(s: string): (p: string)
    ensures p <= s && '_' !in p
    ensures |p| < |s| ==> s[|p|] == '_'
  {
    if |s| == 0 || s[0] == '_' then [] else [s[0]] + BeforeUnderscore(s[1..])
  }

  predicate IsDigit(c: char)
  {
    '0' <= c <= '9'
  }

  function DigitValue(c: char): int
    requires IsDigit(c)
  {
    c as int - '0' as int
  }

  /** How strconv.ParseUint (base 10, 64 bits) ends its left-to-right scan:
      every character a digit and the value in range, a syntax error at the
      first non-digit, or a range error as soon as the value exceeds
      2^64 - 1, whatever characters follow. */
  datatype Scan = Digits(value: nat) | SyntaxError | RangeError

  function ScanUint(s: string, acc: nat): Scan
    decreases |s|
  {
    if |s| == 0 then Digits(acc)
    else if !IsDigit(s[0]) then SyntaxError
    else if acc * 10 + DigitValue(s[0]) > MaxUint64 then RangeError
    else ScanUint(s[1..], acc * 10 + DigitValue(s[0]))
  }

  /** The text after one optional leading sign. */
  function Unsigned(s: string): string
  {
    if |s| > 0 && (s[0] == '-' || s[0] == '+') then s[1..] else s
  }

  /** strconv.Atoi on a 64-bit platform, keeping only the number as the
      caller does: an optional sign, then at least one digit; a syntax error
      gives 0, a value out of range gives the nearest int64 bound. */
  function Atoi(s: string): (n: int)
    ensures MinInt64 <= n <= MaxInt64
    ensures |s| == 0 ==> n == 0
    ensures n == ParsedInt(s)
  {
    var negative := |s| > 0 && s[0] == '-';
    var digits := Unsigned(s);
    if |digits| == 0 then 0
    else
      ScanDigitRun(digits, 0);
      DigitRunOfNumeral(digits);
      match ScanUint(digits, 0)
      case SyntaxError => 0
      case RangeError => if negative then MinInt64 else MaxInt64
      case Digits(v) =>
        if !negative then (if v > MaxInt64 then MaxInt64 else v)
        else (if v > -MinInt64 then MinInt64 else -(v as int))
  }

  /** getMigrationNumber: the number the text before the first underscore
      spells. */
  function MigrationNumber(name: string): (n: int)
    ensures MinInt64 <= n <= MaxInt64
    ensures n == ParsedInt(BeforeUnderscore(name))
  {
    Atoi(BeforeUnderscore(name))
  }

  function Pow10(k: nat): (p: nat)
    ensures p >= 1
  {
    if k == 0 then 1 else 10 * Pow10(k - 1)
  }

  /** A non-empty run of decimal digits. */
  predicate IsNumeral(ds: string)
  {
    |ds| > 0 && forall i :: 0 <= i < |ds| ==> IsDigit(ds[i])
  }

  /** The value of a decimal numeral, most significant digit first. */
  function NumeralValue(ds: string): nat
    requires forall i :: 0 <= i < |ds| ==> IsDigit(ds[i])
  {
    if |ds| == 0 then 0 else DigitValue(ds[0]) * Pow10(|ds| - 1) + NumeralValue(ds[1..])
  }

  /** The digits at the start of a text, up to the first non-digit. */
  function DigitRun(s: string): (run: string)
    ensures run <= s
    ensures forall i :: 0 <= i < |run| ==> IsDigit(run[i])
    ensures |run| < |s| ==> !IsDigit(s[|run|])
  {
    if |s| == 0 || !IsDigit(s[0]) then [] else [s[0]] + DigitRun(s[1..])
  }

  /** The nearest int64 to v. */
  function Clamp(v: int): (c: int)
    ensures MinInt64 <= c <= MaxInt64
    ensures MinInt64 <= v <= MaxInt64 ==> c == v
    ensures v > MaxInt64 ==> c == MaxInt64
    ensures v < MinInt64 ==> c == MinInt64
  {
    if v > MaxInt64 then MaxInt64 else if v < MinInt64 then MinInt64 else v
  }

  /** What the caller of strconv.Atoi keeps, stated without the scanner:
      an optional sign followed by digits gives its signed value clamped to
      the int64 range; any other text gives 0, except when its leading
      digits already exceed 2^64 - 1: the range error is raised before the
      offending character is reached, and the nearest bound is kept. */
  function ParsedInt(s: string): int
  {
    var negative := |s| > 0 && s[0] == '-';
    var u := Unsigned(s);
    if IsNumeral(u) then Clamp(if negative then -(NumeralValue(u) as int) else NumeralValue(u))
    else if NumeralValue(DigitRun(u)) > MaxUint64 then (if negative then MinInt64 else MaxInt64)
    else 0
  }

  /** How the scan ends, from where it starts (`acc`): a range error when
      the leading digits overflow, otherwise a syntax error when a
      non-digit follows them, otherwise their value. */
  lemma {:induction false} ScanDigitRun(s: string, acc: nat)
    requires acc <= MaxUint64
    ensures ScanUint(s, acc) ==
      if acc * Pow10(|DigitRun(s)|) + NumeralValue(DigitRun(s)) > MaxUint64 then RangeError
      else if DigitRun(s) != s then SyntaxError
      else Digits(acc * Pow10(|DigitRun(s)|) + NumeralValue(DigitRun(s)))
  {
    if |s| > 0 && IsDigit(s[0]) {
      var d := DigitValue(s[0]);
      var rest := DigitRun(s[1..]);
      var p := Pow10(|rest|);
      var tail := NumeralValue(rest);
      var next := acc * 10 + d;
      var run := DigitRun(s);
      assert run == [s[0]] + rest;
      assert run[1..] == rest;
      assert NumeralValue(run) == d * p + tail;
      assert Pow10(|run|) == 10 * p;
      Regroup(acc, d, p, tail);
      if next <= MaxUint64 {
        ScanDigitRun(s[1..], next);
        assert run == s <==> rest == s[1..];
      }
    }
  }

  /** The arithmetic of one scanning step. */
  lemma Regroup(acc: nat, d: nat, p: nat, tail: nat)
    requires p >= 1
    ensures acc * (10 * p) + (d * p + tail) == (acc * 10 + d) * p + tail
    ensures acc * 10 + d <= (acc * 10 + d) * p
  {
    assert acc * (10 * p) == (acc * 10) * p;
    assert (acc * 10 + d) * p == (acc * 10) * p + d * p;
  }

  /** The leading digit run of digits followed by a non-digit is those
      digits. */
  lemma {:induction false} DigitRunPrefix(ds: string, rest: string)
    requires forall i :: 0 <= i < |ds| ==> IsDigit(ds[i])
    requires rest == [] || !IsDigit(rest[0])
    ensures DigitRun(ds + rest) == ds
  {
    if |ds| > 0 {
      assert (ds + rest)[1..] == ds[1..] + rest;
      DigitRunPrefix(ds[1..], rest);
    }
  }

  /** A text is a numeral exactly when it is its own leading digit run. */
  lemma DigitRunOfNumeral(s: string)
    requires |s| > 0
    ensures IsNumeral(s) <==> DigitRun(s) == s
  {
  }

  /** The part before the first underscore of `p + rest` is `p` when `p`
      has no underscore and `rest` is empty or starts with one. */
  lemma {:induction false} BeforeUnderscorePrefix(p: string, rest: string)
    requires '_' !in p && (rest == [] || rest[0] == '_')
    ensures BeforeUnderscore(p + rest) == p
  {
    if |p| > 0 {
      var name := p + rest;
      assert name[0] == p[0];
      assert name[1..] == p[1..] + rest;
      BeforeUnderscorePrefix(p[1..], rest);
    }
  }

  /** A sign and digits parse to the signed value of the digits, clamped
      to the int64 range. */
  lemma ParsedSignedNumeral(sign: string, ds: string)
    requires sign == "" || sign == "-" || sign == "+"
    requires IsNumeral(ds)
    ensures ParsedInt(sign + ds) == Clamp(if sign == "-" then -(NumeralValue(ds) as int) else NumeralValue(ds))
  {
    var p := sign + ds;
    assert p[0] == '-' <==> sign == "-" by {
      if sign == "" {
        assert p[0] == ds[0] && IsDigit(ds[0]);
      }
    }
    assert Unsigned(p) == ds by {
      if sign != "" {
        assert p[1..] == ds;
      }
    }
  }

  /** A file named "<sign><digits>" followed by nothing or by '_' gets the
      signed value of its digits, leading zeros and all, clamped to the
      int64 range. */
  lemma MigrationNumberOfNumeral(sign: string, ds: string, rest: string)
    requires sign == "" || sign == "-" || sign == "+"
    requires IsNumeral(ds) && (rest == [] || rest[0] == '_')
    ensures MigrationNumber(sign + ds + rest) ==
      Clamp(if sign == "-" then -(NumeralValue(ds) as int) else NumeralValue(ds))
  {
    var p := sign + ds;
    forall i | 0 <= i < |p|
      ensures p[i] != '_'
    {
      if i >= |sign| {
        assert p[i] == ds[i - |sign|];
      }
    }
    assert sign + ds + rest == p + rest;
    BeforeUnderscorePrefix(p, rest);
    ParsedSignedNumeral(sign, ds);
  }

  /** A name whose part before the first underscore is not a sign and
      digits gets 0, provided its leading digits stay within 2^64 - 1. */
  lemma MigrationNumberOfMalformed(name: string)
    requires !IsNumeral(Unsigned(BeforeUnderscore(name)))
    requires NumeralValue(DigitRun(Unsigned(BeforeUnderscore(name)))) <= MaxUint64
    ensures MigrationNumber(name) == 0
  {
  }

  /** Leading digits above 2^64 - 1 give the int64 bound of the sign,
      whatever follows them. */
  lemma MigrationNumberOfOverflow(name: string)
    requires NumeralValue(DigitRun(Unsigned(BeforeUnderscore(name)))) > MaxUint64
    ensures MigrationNumber(name) == if BeforeUnderscore(name)[0] == '-' then MinInt64 else MaxInt64
  {
    var u := Unsigned(BeforeUnderscore(name));
    assert |DigitRun(u)| > 0;
    DigitRunOfNumeral(u);
  }

  /** A name that does not start with a sign or a digit gets 0. */
  lemma MigrationNumberWithoutDigits(name: string)
    requires |name| > 0 && !IsDigit(name[0]) && name[0] != '-' && name[0] != '+'
    ensures MigrationNumber(name) == 0
  {
    var p := BeforeUnderscore(name);
    if |p| > 0 {
      assert p[0] == name[0];
    }
  }

  /** Leading zeros are read: "0001_init.up.sql" is migration 1. */
  lemma LeadingZerosExample()
    ensures MigrationNumber("0001_init.up.sql") == 1
  {
    assert "0001_init.up.sql" == "0001" + "_init.up.sql";
    BeforeUnderscorePrefix("0001", "_init.up.sql");
    assert Unsigned("0001") == "0001" && IsNumeral("0001");
    assert "0001"[1..] == "001" && "001"[1..] == "01" && "01"[1..] == "1";
  }

  /** A sign is read: "-3_x" is -3, and a "+" alone is no number. */
  lemma SignExamples()
    ensures MigrationNumber("-3_x.up.sql") == -3
    ensures MigrationNumber("+_x.up.sql") == 0
  {
    assert "-3_x.up.sql" == "-" + "3" + "_x.up.sql";
    MigrationNumberOfNumeral("-", "3", "_x.up.sql");
    assert "+_x.up.sql" == "+" + "_x.up.sql";
    BeforeUnderscorePrefix("+", "_x.up.sql");
  }

  /** Without an underscore the whole name is parsed: "001.up.sql" is 0. */
  lemma NoUnderscoreExample()
    ensures MigrationNumber("001.up.sql") == 0
  {
    var name := "001" + ".up.sql";
    assert name == "001.up.sql";
    BeforeUnderscorePrefix(name, "");
    assert name + "" == name;
    assert Unsigned(name) == name;
    DigitRunPrefix("001", ".up.sql");
    assert !IsNumeral(name) by {
      assert !IsDigit(name[3]);
    }
    assert "001"[1..] == "01" && "01"[1..] == "1";
  }

  /** A letter among the digits makes the number 0: "12a_x.up.sql". */
  lemma LetterExample()
    ensures MigrationNumber("12a_x.up.sql") == 0
  {
    var p := "12" + "a";
    assert "12a_x.up.sql" == p + "_x.up.sql";
    BeforeUnderscorePrefix(p, "_x.up.sql");
    assert Unsigned(p) == p;
    DigitRunPrefix("12", "a");
    assert !IsNumeral(p) by {
      assert !IsDigit(p[2]);
    }
    assert "12"[1..] == "2";
  }

  // ---------------------------------------------------------------------
  // Selecting by suffix

  /** strings.HasSuffix. */
  predicate HasSuffix(s: string, suffix: string)
  {
    |suffix| <= |s| && s[|s| - |suffix|..] == suffix
  }

  /** The names that end in `suffix`, in listing order. */
  function Filter(names: seq<string>, suffix: string): (kept: seq<string>)
    ensures forall i :: 0 <= i < |kept| ==> HasSuffix(kept[i], suffix)
  {
    if |names| == 0 then []
    else
      var init := Filter(names[..|names| - 1], suffix);
      var last := names[|names| - 1];
      if HasSuffix(last, suffix) then init + [last] else init
  }

  /** Every name ending in the suffix is kept as often as it is listed;
      every other name is dropped. */
  lemma {:induction false} FilterCounts(names: seq<string>, suffix: string)
    ensures forall x :: multiset(Filter(names, suffix))[x] == if HasSuffix(x, suffix) then multiset(names)[x] else 0
  {
    if |names| > 0 {
      var init := names[..|names| - 1];
      FilterCounts(init, suffix);
      assert names == init + [names[|names| - 1]];
    }
  }

  /** The loop that collects upFiles or downFiles. */
  method SelectBySuffix(names: seq<string>, suffix: string) returns (selected: seq<string>)
    ensures selected == Filter(names, suffix)
  {
    selected := [];
    for i := 0 to |names|
      invariant selected == Filter(names[..i], suffix)
    {
      assert names[..i + 1][..i] == names[..i];
      if HasSuffix(names[i], suffix) {
        selected := selected + [names[i]];
      }
    }
    assert names[..|names|] == names;
  }

  // ---------------------------------------------------------------------
  // Sorting by migration number

  /** The sort key: the migration number, negated for a descending sort. */
  function Rank(name: string, descending: bool): int
  {
    if descending then -MigrationNumber(name) else MigrationNumber(name)
  }

  predicate SortedByNumber(names: seq<string>, descending: bool)
  {
    forall i, j :: 0 <= i < j < |names| ==> Rank(names[i], descending) <= Rank(names[j], descending)
  }

  /** The first name of a list sorted by descending number has the highest
      number. */
  lemma HighestFirst(names: seq<string>)
    requires |names| > 0 && SortedByNumber(names, true)
    ensures forall f :: f in names ==> MigrationNumber(f) <= MigrationNumber(names[0])
  {
    forall f | f in names
      ensures MigrationNumber(f) <= MigrationNumber(names[0])
    {
      var k :| 0 <= k < |names| && names[k] == f;
      if k > 0 {
        assert Rank(names[0], true) <= Rank(names[k], true);
      }
    }
  }

  predicate SortedByKey(s: seq<string>, n: int, key: string -> int)
    requires 0 <= n <= |s|
  {
    forall i, j :: 0 <= i < j < n ==> key(s[i]) <= key(s[j])
  }

  /** sort.Slice with a "key(a[i]) < key(a[j])" comparison, as an insertion
      sort: the result is ordered by the key and a permutation of the input.
      Equal keys keep their relative order, one of the orders sort.Slice
      may produce. */
  method SortSlice(a: array<string>, key: string -> int)
    modifies a
    ensures SortedByKey(a[..], a.Length, key)
    ensures multiset(a[..]) == multiset(old(a[..]))
  {
    for i := 0 to a.Length
      invariant SortedByKey(a[..], i, key)
      invariant multiset(a[..]) == multiset(old(a[..]))
    {
      InsertLast(a, i, key);
    }
  }

  /** One step of the insertion sort: moves a[i] down into the sorted
      prefix a[..i]. */
  method InsertLast(a: array<string>, i: int, key: string -> int)
    requires 0 <= i < a.Length && SortedByKey(a[..], i, key)
    modifies a
    ensures SortedByKey(a[..], i + 1, key)
    ensures multiset(a[..]) == multiset(old(a[..]))
  {
    var j := i;
    while j > 0 && key(a[j]) < key(a[j - 1])
      invariant 0 <= j <= i
      invariant SortedExcept(a[..], i, j, key)
      invariant multiset(a[..]) == multiset(old(a[..]))
    {
      ghost var before := a[..];
      a[j - 1], a[j] := a[j], a[j - 1];
      assert a[..] == before[j - 1 := before[j]][j := before[j - 1]];
      SwapDown(before, i, j, key);
      j := j - 1;
    }
  }

  /** The first i + 1 names are ordered by the key, except possibly at
      position j, the one being moved down. */
  predicate SortedExcept(s: seq<string>, i: int, j: int, key: string -> int)
    requires 0 <= i < |s|
  {
    forall k, l :: 0 <= k < l <= i && l != j ==> key(s[k]) <= key(s[l])
  }

  /** Swapping the name at j with a larger-keyed predecessor moves the
      exception down to j - 1 and keeps the multiset of names. */
  lemma SwapDown(s: seq<string>, i: int, j: int, key: string -> int)
    requires 0 < j <= i < |s| && SortedExcept(s, i, j, key) && key(s[j]) < key(s[j - 1])
    ensures SortedExcept(s[j - 1 := s[j]][j := s[j - 1]], i, j - 1, key)
    ensures multiset(s[j - 1 := s[j]][j := s[j - 1]]) == multiset(s)
  {
    var t := s[j - 1 := s[j]][j := s[j - 1]];
    forall k, l | 0 <= k < l <= i && l != j - 1
      ensures key(t[k]) <= key(t[l])
    {
      if l == j {
        if k < j - 1 {
          assert t[k] == s[k] && t[l] == s[j - 1];
        }
      } else if k == j - 1 {
        assert t[k] == s[j] && t[l] == s[l];
      } else if k == j {
        assert t[k] == s[j - 1] && t[l] == s[l];
      } else {
        assert t[k] == s[k] && t[l] == s[l];
      }
    }
  }


  /** The sort of Apply and Rollback: by migration number, ascending or
      descending. */
  method SortByNumber(a: array<string>, descending: bool)
    modifies a
    ensures SortedByNumber(a[..], descending)
    ensures multiset(a[..]) == multiset(old(a[..]))
  {
    SortSlice(a, name => Rank(name, descending));
  }

  // ---------------------------------------------------------------------
  // The directory, the database and running scripts

  /** The migrations directory: its listing (None when it cannot be read)
      and the contents of the files that can be read. */
  datatype MigrationsDir = MigrationsDir(listing: Option<seq<string>>, files: map<string, string>)

  datatype MigrationError = DirUnreadable | ReadFailed(file: string) | ExecFailed(file: string)

  /** The database: it refuses the scripts in `rejects` and appends every
      script it runs to `applied`. */
  class Database {
    const rejects: set<string>
    var applied: seq<string>

    constructor (rejects: set<string>)
      ensures this.rejects == rejects && applied == []
    {
      this.rejects := rejects;
      applied := [];
    }

    /** db.Exec. */
    method Exec(script: string) returns (ok: bool)
      modifies this
      ensures ok <==> script !in rejects
      ensures applied == if ok then old(applied) + [script] else old(applied)
    {
      ok := script !in rejects;
      if ok {
        applied := applied + [script];
      }
    }
  }

  /** Running a list of files one after the other: the files whose scripts
      ran, those scripts, and the outcome. */
  datatype RunResult = RunResult(executed: seq<string>, scripts: seq<string>, outcome: Outcome<MigrationError>)

  /** Read each file and execute its script, stopping at the first file that
      cannot be read or whose script is refused. */
  function Run(files: seq<string>, dir: MigrationsDir, rejects: set<string>): RunResult
  {
    if |files| == 0 then RunResult([], [], Pass)
    else if files[0] !in dir.files then RunResult([], [], Fail(ReadFailed(files[0])))
    else if dir.files[files[0]] in rejects then RunResult([], [], Fail(ExecFailed(files[0])))
    else
      var rest := Run(files[1..], dir, rejects);
      RunResult([files[0]] + rest.executed, [dir.files[files[0]]] + rest.scripts, rest.outcome)
  }

  /** What a run promises: the files that ran are a prefix of the list, each
      readable with an accepted script, and their scripts ran in that order;
      the run succeeds exactly when every file ran, and otherwise its error
      names the first file that did not run and why. */
  predicate RunShape(files: seq<string>, dir: MigrationsDir, rejects: set<string>, r: RunResult)
  {
    && r.executed <= files
    && |r.scripts| == |r.executed|
    && (forall i :: 0 <= i < |r.executed| ==>
          r.executed[i] in dir.files && r.scripts[i] == dir.files[r.executed[i]] && r.scripts[i] !in rejects)
    && (r.outcome.Pass? <==> r.executed == files)
    && (r.outcome.Fail? ==>
          && |r.executed| < |files|
          && var f := files[|r.executed|];
          && r.outcome.error == (if f !in dir.files then ReadFailed(f) else ExecFailed(f))
          && (f in dir.files ==> dir.files[f] in rejects))
  }

  lemma {:induction false} RunStopsAtFirstFailure(files: seq<string>, dir: MigrationsDir, rejects: set<string>)
    ensures RunShape(files, dir, rejects, Run(files, dir, rejects))
  {
    if |files| > 0 && files[0] in dir.files && dir.files[files[0]] !in rejects {
      var rest := Run(files[1..], dir, rejects);
      RunStopsAtFirstFailure(files[1..], dir, rejects);
      var r := Run(files, dir, rejects);
      assert r.executed == [files[0]] + rest.executed;
      assert r.scripts == [dir.files[files[0]]] + rest.scripts;
      forall i | 0 <= i < |r.executed|
        ensures r.executed[i] in dir.files && r.scripts[i] == dir.files[r.executed[i]] && r.scripts[i] !in rejects
      {
        if i > 0 {
          assert r.executed[i] == rest.executed[i - 1] && r.scripts[i] == rest.scripts[i - 1];
        }
      }
      if r.outcome.Fail? {
        assert files[|r.executed|] == files[1..][|rest.executed|];
      }
    }
  }

  /** Apply's guarantee on order: the files that ran did so in
      non-decreasing migration-number order, none of them twice unless it
      was listed twice. */
  lemma AppliedInOrder(order: seq<string>, dir: MigrationsDir, rejects: set<string>)
    requires SortedByNumber(order, false)
    ensures SortedByNumber(Run(order, dir, rejects).executed, false)
    ensures multiset(Run(order, dir, rejects).executed) <= multiset(order)
  {
    var executed := Run(order, dir, rejects).executed;
    RunStopsAtFirstFailure(order, dir, rejects);
    SortedPrefix(executed, order);
    PrefixMultiset(executed, order);
  }

  /** A prefix holds no name more often than the whole list. */
  lemma PrefixMultiset(p: seq<string>, s: seq<string>)
    requires p <= s
    ensures multiset(p) <= multiset(s)
  {
    assert s == p + s[|p|..];
  }

  /** A prefix of a list sorted by number is sorted by number. */
  lemma SortedPrefix(p: seq<string>, s: seq<string>)
    requires p <= s && SortedByNumber(s, false)
    ensures SortedByNumber(p, false)
  {
    forall i, j | 0 <= i < j < |p|
      ensures Rank(p[i], false) <= Rank(p[j], false)
    {
      assert p[i] == s[i] && p[j] == s[j];
    }
  }

  class Migrator {
    const dir: MigrationsDir
    const db: Database

    constructor (dir: MigrationsDir, db: Database)
      ensures this.dir == dir && this.db == db
    {
      this.dir := dir;
      this.db := db;
    }

    /** The loop of Apply: read and execute the files of `a` in order,
        returning at the first failure. */
    method RunFiles(a: array<string>) returns (r: Outcome<MigrationError>)
      modifies db
      ensures var run := Run(a[..], dir, db.rejects);
        r == run.outcome && db.applied == old(db.applied) + run.scripts
    {
      for k := 0 to a.Length
        invariant old(db.applied) + Run(a[..], dir, db.rejects).scripts == db.applied + Run(a[k..], dir, db.rejects).scripts
        invariant Run(a[..], dir, db.rejects).outcome == Run(a[k..], dir, db.rejects).outcome
      {
        var file := a[k];
        assert a[k..][1..] == a[k + 1..];
        if file !in dir.files {
          return Fail(ReadFailed(file));
        }
        var ok := db.Exec(dir.files[file]);
        if !ok {
          return Fail(ExecFailed(file));
        }
      }
      assert a[a.Length..] == [];
      return Pass;
    }

    /** Apply: every ".up.sql" entry of the listing, in ascending
        migration-number order, until the first failure. `order` is the
        order the sort chose. */
    method Apply() returns (r: Outcome<MigrationError>, ghost order: seq<string>)
      modifies db
      ensures dir.listing.None? ==> r == Fail(DirUnreadable) && db.applied == old(db.applied)
      ensures dir.listing.Some? ==>
        && multiset(order) == multiset(Filter(dir.listing.value, UpSuffix))
        && SortedByNumber(order, false)
        && var run := Run(order, dir, db.rejects);
        && r == run.outcome
        && db.applied == old(db.applied) + run.scripts
    {
      order := [];
      if dir.listing.None? {
        return Fail(DirUnreadable), order;
      }
      var upFiles := SelectBySuffix(dir.listing.value, UpSuffix);
      var a := new string[|upFiles|](i requires 0 <= i < |upFiles| => upFiles[i]);
      assert a[..] == upFiles;
      SortByNumber(a, false);
      order := a[..];
      r := RunFiles(a);
    }

    /** Rollback: with no ".down.sql" entry it does nothing; otherwise it
        runs exactly one of them, one with the highest migration number. */
    method Rollback() returns (r: Outcome<MigrationError>, ghost chosen: string)
      modifies db
      ensures dir.listing.None? ==> r == Fail(DirUnreadable) && db.applied == old(db.applied)
      ensures dir.listing.Some? && Filter(dir.listing.value, DownSuffix) == [] ==>
        r == Pass && db.applied == old(db.applied)
      ensures dir.listing.Some? && Filter(dir.listing.value, DownSuffix) != [] ==>
        && var downs := Filter(dir.listing.value, DownSuffix);
        && chosen in downs
        && (forall f :: f in downs ==> MigrationNumber(f) <= MigrationNumber(chosen))
        && var run := Run([chosen], dir, db.rejects);
        && r == run.outcome
        && db.applied == old(db.applied) + run.scripts
    {
      chosen := "";
      if dir.listing.None? {
        return Fail(DirUnreadable), chosen;
      }
      var downFiles := SelectBySuffix(dir.listing.value, DownSuffix);
      if |downFiles| == 0 {
        return Pass, chosen;
      }
      var a := new string[|downFiles|](i requires 0 <= i < |downFiles| => downFiles[i]);
      assert a[..] == downFiles;
      SortByNumber(a, true);
      var lastDown := a[0];
      chosen := lastDown;
      HighestFirst(a[..]);
      forall f | f in downFiles
        ensures f in a[..]
      {
        assert f in multiset(a[..]);
      }
      assert lastDown in multiset(downFiles);
      var single := new string[1](i requires 0 <= i < 1 => lastDown);
      assert single[..] == [lastDown];
      r := RunFiles(single);
    }
  }
}
