/**
 * The read-side aggregator: a scan of the storage directory that counts,
 * per country, the stored users of each gender, and the report it prints.
 */
module GenderStats {
  import opened Wrappers
  import opened Json
  import opened Text

  /** One directory entry: its name and its decoded content, `None` when it cannot be opened or decoded. */
  datatype Entry = Entry(name: string, content: Option<Value>)

  datatype Gender = Male | Female

  /** A country as a dictionary key. Python's `True == 1` makes them one key. */
  datatype Country = CStr(s: string) | CInt(i: int) | CNone

  /** The per-country counter created by the default factory `{'male': 0, 'female': 0}`. */
  datatype Counts = Counts(male: nat, female: nat)

  /** What the scan makes of one entry. */
  datatype Verdict =
    | Ignored                                   // the name does not end in ".json"
    | Unreadable                                // an exception was caught and the name logged
    | Uncounted                                 // read, but the country is falsy or the gender invalid
    | Counted(country: Country, gender: Gender) // `stats[country][gender] += 1`

  /** `gender in ("male", "female")`. */
  function GenderOf(v: Value): Option<Gender>
  {
    if v == Str("male") then Some(Male)
    else if v == Str("female") then Some(Female)
    else None
  }

  /** The dictionary key of a value; `None` when the value is unhashable (a list or an object). */
  function KeyOf(v: Value): Option<Country>
  {
    match v
    case Null => Some(CNone)
    case Bool(b) => Some(CInt(if b then 1 else 0))
    case Num(n) => Some(CInt(n))
    case Str(s) => Some(CStr(s))
    case Arr(_) => None
    case Obj(_) => None
  }

  /**
   * The work on `user = data["results"][0]`: `user["location"].get("country")`
   * raises unless `user` is an object whose `location` is an object, and
   * `stats[country]` raises when the country is unhashable.
   */
  function InspectUser(user: Value): Verdict
  {
    if !user.Obj? || "location" !in user.fields || !user.fields["location"].Obj? then Unreadable
    else
      var country := Get(user.fields["location"].fields, "country");
      var gender := GenderOf(Get(user.fields, "gender"));
      if !Truthy(country) || gender.None? then Uncounted
      else match KeyOf(country)
        case None => Unreadable
        case Some(c) => Counted(c, gender.value)
  }

  /** `data["results"][0]` raises unless `results` is a non-empty list of a top-level object. */
  function Inspect(data: Value): Verdict
  {
    if data.Obj? && "results" in data.fields && data.fields["results"].Arr?
       && |data.fields["results"].items| > 0
    then InspectUser(data.fields["results"].items[0])
    else Unreadable
  }

  /**
   * The fields of `data["results"][0]` when `user["location"].get(...)` can be
   * evaluated on it; `None` where reaching it raises.
   */
  function ReachedUser(data: Value): Option<map<string, Value>>
  {
    if data.Obj? && "results" in data.fields && data.fields["results"].Arr?
       && |data.fields["results"].items| > 0
       && data.fields["results"].items[0].Obj?
       && "location" in data.fields["results"].items[0].fields
       && data.fields["results"].items[0].fields["location"].Obj?
    then Some(data.fields["results"].items[0].fields)
    else None
  }

  /** `user["location"].get("country")`, for a user whose `location` is an object. */
  function CountryOf(user: map<string, Value>): Value
  {
    if "location" in user && user["location"].Obj? then Get(user["location"].fields, "country") else Null
  }

  /** Reading the file, or reaching `stats[country]` with an unhashable country, raises. */
  predicate Raises(content: Option<Value>)
  {
    match content
    case None => true
    case Some(data) =>
      match ReachedUser(data)
      case None => true
      case Some(user) =>
        Truthy(CountryOf(user)) && GenderOf(Get(user, "gender")).Some? && KeyOf(CountryOf(user)).None?
  }

  /**
   * The verdict for one directory entry: other names are passed over, a
   * raising ".json" entry is logged, a readable one is counted exactly when
   * its country is truthy and its gender valid.
   */
  function Classify(e: Entry): (v: Verdict)
    ensures v == Ignored <==> !EndsWith(e.name, ".json")
    ensures v == Unreadable <==> EndsWith(e.name, ".json") && Raises(e.content)
    ensures v == Uncounted <==>
      && EndsWith(e.name, ".json") && !Raises(e.content)
      && var user := ReachedUser(e.content.value).value;
      (!Truthy(CountryOf(user)) || GenderOf(Get(user, "gender")).None?)
    ensures v.Counted? ==>
      && EndsWith(e.name, ".json") && !Raises(e.content)
      && var user := ReachedUser(e.content.value).value;
      Some(v.country) == KeyOf(CountryOf(user)) && Truthy(CountryOf(user))
      && Some(v.gender) == GenderOf(Get(user, "gender"))
  {
    if !EndsWith(e.name, ".json") then Ignored
    else match e.content
      case None => Unreadable
      case Some(data) => Inspect(data)
  }

  /**
   * A ".json" entry adds one to `stats[c][g]` exactly when it decodes to an
   * object whose `results` is a non-empty list, whose first element is an
   * object with an object `location`, whose `location.country` is a truthy
   * hashable value with key `c`, and whose `gender` is `g`.
   */
  lemma CountedExactlyWhen(e: Entry, c: Country, g: Gender)
    ensures Classify(e) == Counted(c, g) <==>
      (EndsWith(e.name, ".json") && e.content.Some?
       && var data := e.content.value;
       (data.Obj? && "results" in data.fields && data.fields["results"].Arr?
        && |data.fields["results"].items| > 0
        && var user := data.fields["results"].items[0];
        (user.Obj? && "location" in user.fields && user.fields["location"].Obj?
         && var country := Get(user.fields["location"].fields, "country");
         Truthy(country) && KeyOf(country) == Some(c) && GenderOf(Get(user.fields, "gender")) == Some(g))))
  {
  }

  /** The accumulator: the counters, and the countries in insertion order. */
  datatype Stats = Stats(counts: map<Country, Counts>, order: seq<Country>)

  /** `stats[c]` of the `defaultdict`, which reads as zero counts before the first access. */
  function Lookup(counts: map<Country, Counts>, c: Country): Counts
  {
    if c in counts then counts[c] else Counts(0, 0)
  }

  /** `counts[gender] += 1`: one more of that gender, the other count unchanged. */
  function Bump(k: Counts, g: Gender): Counts
  {
    match g
    case Male => k.(male := k.male + 1)
    case Female => k.(female := k.female + 1)
  }

  /**
   * The effect of one verdict on the accumulator: a counted entry adds one to
   * exactly one counter, creating the country (last in order) on first use;
   * every other verdict leaves the accumulator as it was.
   */
  function Apply(s: Stats, v: Verdict): (r: Stats)
    ensures !v.Counted? ==> r == s
    ensures v.Counted? ==>
      && r.counts.Keys == s.counts.Keys + {v.country}
      && r.counts[v.country] == Bump(Lookup(s.counts, v.country), v.gender)
      && (forall d :: d in s.counts && d != v.country ==> r.counts[d] == s.counts[d])
      && r.order == if v.country in s.counts then s.order else s.order + [v.country]
  {
    match v
    case Counted(c, g) =>
      Stats(s.counts[c := Bump(Lookup(s.counts, c), g)],
            if c in s.counts then s.order else s.order + [c])
    case _ => s
  }

  /** The effect of one directory entry. */
  function Step(s: Stats, e: Entry): Stats
  {
    Apply(s, Classify(e))
  }

  /** The accumulator after the scan of a listing, entry by entry. */
  function Fold(dir: seq<Entry>): Stats
  {
    if dir == [] then Stats(map[], []) else Step(Fold(dir[..|dir| - 1]), dir[|dir| - 1])
  }

  /** The names logged as "Error reading", in scan order. */
  function Logged(dir: seq<Entry>): seq<string>
  {
    if dir == [] then []
    else Logged(dir[..|dir| - 1])
         + (if Classify(dir[|dir| - 1]) == Unreadable then [dir[|dir| - 1].name] else [])
  }

  /** `"{country}"` of an f-string. */
  function Display(c: Country): string
  {
    match c
    case CStr(s) => s
    case CInt(i) => IntToString(i)
    case CNone => "None"
  }

  /** One report line: `"{country}: {male} male, {female} female"`. */
  function Line(c: Country, k: Counts): string
  {
    Display(c) + ": " + (NatToString(k.male) + " male, " + (NatToString(k.female) + " female"))
  }

  /** The report: one line per country, in insertion order. */
  function ReportLines(s: Stats): seq<string>
  {
    seq(|s.order|, i requires 0 <= i < |s.order| => Line(s.order[i], Lookup(s.counts, s.order[i])))
  }

  predicate NoDuplicates(order: seq<Country>)
  {
    forall i, j :: 0 <= i < j < |order| ==> order[i] != order[j]
  }

  /**
   * The accumulator's invariant: the order lists each country with a counter
   * exactly once, and every counter has been incremented at least once.
   */
  ghost predicate Valid(s: Stats)
  {
    && NoDuplicates(s.order)
    && s.counts.Keys == set c | c in s.order
    && (forall c :: c in s.counts ==> s.counts[c].male + s.counts[c].female >= 1)
  }

  /** Every accumulator the scan produces is valid. */
  lemma {:induction false} FoldValid(dir: seq<Entry>)
    ensures Valid(Fold(dir))
  {
    if dir != [] {
      FoldValid(dir[..|dir| - 1]);
      ApplyValid(Fold(dir[..|dir| - 1]), Classify(dir[|dir| - 1]));
    }
  }

  /** One step keeps the accumulator valid. */
  lemma ApplyValid(s: Stats, v: Verdict)
    requires Valid(s)
    ensures Valid(Apply(s, v))
  {
    if v.Counted? {
      var r := Apply(s, v);
      var c := v.country;
      if c !in s.counts {
        assert r.order == s.order + [c];
        assert c !in s.order;
      }
      assert r.counts.Keys == set d | d in r.order;
    }
  }

  /** The printing loop over `stats.items()`: one line per country, in insertion order. */
  method Report(stats: Stats) returns (lines: seq<string>)
    requires Valid(stats)
    ensures |lines| == |stats.order|
    ensures forall i :: 0 <= i < |lines| ==> lines[i] == Line(stats.order[i], stats.counts[stats.order[i]])
  {
    var counts, order := stats.counts, stats.order;
    lines := [];
    var j := 0;
    while j < |order|
      invariant 0 <= j <= |order|
      invariant |lines| == j
      invariant forall i :: 0 <= i < j ==> lines[i] == Line(order[i], counts[order[i]])
    {
      var country := order[j];
      assert country in counts;
      lines := lines + [Line(country, counts[country])];
      j := j + 1;
    }
  }

  /**
   * `count_genders` over a listing: scans the entries in order, counting and
   * logging as it goes, then renders one line per country.
   */
  method CountGenders(dir: seq<Entry>) returns (stats: Stats, errors: seq<string>, lines: seq<string>)
    ensures stats == Fold(dir)
    ensures errors == Logged(dir)
    ensures lines == ReportLines(stats)
  {
    var counts: map<Country, Counts> := map[];
    var order: seq<Country> := [];
    errors := [];
    var i := 0;
    while i < |dir|
      invariant 0 <= i <= |dir|
      invariant Stats(counts, order) == Fold(dir[..i])
      invariant errors == Logged(dir[..i])
    {
      var entry := dir[i];
      var verdict := Classify(entry);
      assert dir[..i + 1][..i] == dir[..i];
      assert Fold(dir[..i + 1]) == Apply(Fold(dir[..i]), verdict);
      match verdict {
        case Counted(c, g) =>
          if c !in counts {
            counts := counts[c := Counts(0, 0)];
            order := order + [c];
          }
          counts := counts[c := Bump(counts[c], g)];
        case Unreadable =>
          errors := errors + [entry.name];
        case _ =>
      }
      i := i + 1;
    }
    assert dir[..i] == dir;
    stats := Stats(counts, order);
    FoldValid(dir);
    lines := Report(stats);
  }

  // ---------------------------------------------------------------------
  // What the scan computes, stated independently of the accumulator.
  // ---------------------------------------------------------------------

  /** How many entries of the listing are counted for country `c` and gender `g`. */
  function Tally(dir: seq<Entry>, c: Country, g: Gender): nat
  {
    if dir == [] then 0
    else Tally(dir[..|dir| - 1], c, g) + (if Classify(dir[|dir| - 1]) == Counted(c, g) then 1 else 0)
  }

  /** Some entry of the listing is counted for country `c`. */
  ghost predicate CountedIn(dir: seq<Entry>, c: Country)
  {
    exists j :: 0 <= j < |dir| && Classify(dir[j]) in {Counted(c, Male), Counted(c, Female)}
  }

  /** Each counter equals the number of entries counted for its country and gender. */
  lemma {:induction false} FoldTally(dir: seq<Entry>, c: Country)
    ensures Lookup(Fold(dir).counts, c) == Counts(Tally(dir, c, Male), Tally(dir, c, Female))
    ensures c in Fold(dir).counts <==> Tally(dir, c, Male) + Tally(dir, c, Female) > 0
  {
    if dir != [] {
      FoldTally(dir[..|dir| - 1], c);
      var v := Classify(dir[|dir| - 1]);
      assert Fold(dir) == Apply(Fold(dir[..|dir| - 1]), v);
    }
  }

  /** A country has a counter exactly when some entry was counted for it. */
  lemma {:induction false} FoldKeys(dir: seq<Entry>, c: Country)
    ensures c in Fold(dir).counts <==> CountedIn(dir, c)
  {
    if dir != [] {
      var prefix, last := dir[..|dir| - 1], dir[|dir| - 1];
      FoldKeys(prefix, c);
      var v := Classify(last);
      assert Fold(dir) == Apply(Fold(prefix), v);
      if CountedIn(dir, c) {
        var j :| 0 <= j < |dir| && Classify(dir[j]) in {Counted(c, Male), Counted(c, Female)};
        if j < |prefix| {
          assert prefix[j] == dir[j];
        }
      }
      if CountedIn(prefix, c) {
        var j :| 0 <= j < |prefix| && Classify(prefix[j]) in {Counted(c, Male), Counted(c, Female)};
        assert dir[j] == prefix[j];
      }
    }
  }

  lemma {:induction false} TallyConcat(a: seq<Entry>, b: seq<Entry>, c: Country, g: Gender)
    ensures Tally(a + b, c, g) == Tally(a, c, g) + Tally(b, c, g)
  {
    if b == [] {
      assert a + b == a;
    } else {
      assert (a + b)[..|a + b| - 1] == a + b[..|b| - 1];
      TallyConcat(a, b[..|b| - 1], c, g);
    }
  }

  /** Taking one entry out of a listing removes exactly its own contribution. */
  lemma TallyRemoveAt(b: seq<Entry>, k: nat, c: Country, g: Gender)
    requires k < |b|
    ensures Tally(b, c, g) == Tally(b[..k] + b[k + 1..], c, g) + Tally([b[k]], c, g)
  {
    assert b == b[..k] + [b[k]] + b[k + 1..];
    TallyConcat(b[..k] + [b[k]], b[k + 1..], c, g);
    TallyConcat(b[..k], [b[k]], c, g);
    TallyConcat(b[..k], b[k + 1..], c, g);
  }

  /** Taking one occurrence out of equal multisets leaves equal multisets. */
  lemma MultisetRemoveAt(a: seq<Entry>, b: seq<Entry>, k: nat)
    requires a != [] && k < |b| && b[k] == a[|a| - 1]
    requires multiset(a) == multiset(b)
    ensures multiset(a[..|a| - 1]) == multiset(b[..k] + b[k + 1..])
  {
    var x := b[k];
    assert a == a[..|a| - 1] + [x];
    assert b == b[..k] + [x] + b[k + 1..];
    assert multiset(b) == multiset(b[..k]) + multiset{x} + multiset(b[k + 1..]);
    assert multiset(a) == multiset(a[..|a| - 1]) + multiset{x};
    var rest := b[..k] + b[k + 1..];
    assert multiset(rest) == multiset(b[..k]) + multiset(b[k + 1..]);
    forall y
      ensures multiset(a[..|a| - 1])[y] == multiset(rest)[y]
    {
      assert multiset(a)[y] == multiset(a[..|a| - 1])[y] + multiset{x}[y];
      assert multiset(b)[y] == multiset(rest)[y] + multiset{x}[y];
    }
  }

  /** The tallies depend only on the multiset of entries, not on the listing order. */
  lemma {:induction false} TallyPermutation(a: seq<Entry>, b: seq<Entry>, c: Country, g: Gender)
    requires multiset(a) == multiset(b)
    ensures Tally(a, c, g) == Tally(b, c, g)
    decreases |a|
  {
    if a == [] {
      assert |b| == |multiset(b)| == 0;
    } else {
      var x := a[|a| - 1];
      assert x in multiset(a);
      var k :| 0 <= k < |b| && b[k] == x;
      MultisetRemoveAt(a, b, k);
      TallyPermutation(a[..|a| - 1], b[..k] + b[k + 1..], c, g);
      TallyRemoveAt(b, k, c, g);
      assert [x][..0] == [];
    }
  }

  /**
   * The counts are a function of the multiset of directory entries: any
   * listing order, and any re-run over an unchanged directory, gives the same map.
   */
  lemma CountsIgnoreListingOrder(a: seq<Entry>, b: seq<Entry>)
    requires multiset(a) == multiset(b)
    ensures Fold(a).counts == Fold(b).counts
  {
    forall c
      ensures c in Fold(a).counts <==> c in Fold(b).counts
      ensures c in Fold(a).counts ==> Fold(a).counts[c] == Fold(b).counts[c]
    {
      FoldTally(a, c);
      FoldTally(b, c);
      TallyPermutation(a, b, c, Male);
      TallyPermutation(a, b, c, Female);
    }
  }

  /** The sum of all counters, over the countries in order. */
  function Total(order: seq<Country>, counts: map<Country, Counts>): nat
  {
    if order == [] then 0
    else Total(order[..|order| - 1], counts)
         + Lookup(counts, order[|order| - 1]).male + Lookup(counts, order[|order| - 1]).female
  }

  /** How many entries are counted at all. */
  function NumCounted(dir: seq<Entry>): nat
  {
    if dir == [] then 0
    else NumCounted(dir[..|dir| - 1]) + (if Classify(dir[|dir| - 1]).Counted? then 1 else 0)
  }

  /** How many entry names end in ".json". */
  function NumJson(dir: seq<Entry>): nat
  {
    if dir == [] then 0
    else NumJson(dir[..|dir| - 1]) + (if EndsWith(dir[|dir| - 1].name, ".json") then 1 else 0)
  }

  lemma {:induction false} TotalUnaffected(order: seq<Country>, counts: map<Country, Counts>, c: Country, k: Counts)
    requires c !in order
    ensures Total(order, counts[c := k]) == Total(order, counts)
  {
    if order != [] {
      var prefix, last := order[..|order| - 1], order[|order| - 1];
      assert c !in prefix && last != c;
      TotalUnaffected(prefix, counts, c, k);
      assert Lookup(counts[c := k], last) == Lookup(counts, last);
    }
  }

  lemma {:induction false} TotalUpdated(order: seq<Country>, counts: map<Country, Counts>, c: Country, k: Counts)
    requires NoDuplicates(order) && c in order
    ensures Total(order, counts[c := k]) + Lookup(counts, c).male + Lookup(counts, c).female
         == Total(order, counts) + k.male + k.female
  {
    var prefix, last := order[..|order| - 1], order[|order| - 1];
    if last == c {
      assert c !in prefix;
      TotalUnaffected(prefix, counts, c, k);
    } else {
      assert c in prefix;
      TotalUpdated(prefix, counts, c, k);
    }
  }

  /**
   * The counters add up to the number of counted entries, which never exceeds
   * the number of ".json" entries.
   */
  lemma {:induction false} FoldTotal(dir: seq<Entry>)
    ensures Total(Fold(dir).order, Fold(dir).counts) == NumCounted(dir)
    ensures NumCounted(dir) <= NumJson(dir)
  {
    if dir != [] {
      var prefix, last := dir[..|dir| - 1], dir[|dir| - 1];
      FoldTotal(prefix);
      FoldValid(prefix);
      ApplyTotal(Fold(prefix), Classify(last));
    }
  }

  /** A counted verdict adds exactly one to the total; any other verdict adds nothing. */
  lemma ApplyTotal(s: Stats, v: Verdict)
    requires Valid(s)
    ensures Total(Apply(s, v).order, Apply(s, v).counts) == Total(s.order, s.counts) + (if v.Counted? then 1 else 0)
  {
    if v.Counted? {
      var c := v.country;
      var k := Bump(Lookup(s.counts, c), v.gender);
      assert k.male + k.female == Lookup(s.counts, c).male + Lookup(s.counts, c).female + 1;
      if c in s.counts {
        TotalUpdated(s.order, s.counts, c, k);
      } else {
        assert c !in s.order;
        TotalUnaffected(s.order, s.counts, c, k);
        assert (s.order + [c])[..|s.order|] == s.order;
      }
    }
  }

  /** The entries whose names end in ".json", in listing order. */
  function JsonEntries(dir: seq<Entry>): seq<Entry>
  {
    if dir == [] then []
    else JsonEntries(dir[..|dir| - 1])
         + (if EndsWith(dir[|dir| - 1].name, ".json") then [dir[|dir| - 1]] else [])
  }

  /** Entries not named "*.json" change neither the counts nor the order. */
  lemma {:induction false} NonJsonIgnored(dir: seq<Entry>)
    ensures Fold(JsonEntries(dir)) == Fold(dir)
  {
    if dir != [] {
      var prefix, last := dir[..|dir| - 1], dir[|dir| - 1];
      NonJsonIgnored(prefix);
      if EndsWith(last.name, ".json") {
        var j := JsonEntries(prefix) + [last];
        assert j[..|j| - 1] == JsonEntries(prefix) && j[|j| - 1] == last;
        assert JsonEntries(dir) == j;
        assert Fold(j) == Step(Fold(JsonEntries(prefix)), last);
      } else {
        assert Classify(last) == Ignored;
        assert JsonEntries(dir) == JsonEntries(prefix);
      }
    }
  }

  /** Entries not named "*.json" are never logged either. */
  lemma {:induction false} NonJsonNotLogged(dir: seq<Entry>)
    ensures Logged(JsonEntries(dir)) == Logged(dir)
  {
    if dir != [] {
      var prefix, last := dir[..|dir| - 1], dir[|dir| - 1];
      NonJsonNotLogged(prefix);
      if EndsWith(last.name, ".json") {
        var j := JsonEntries(prefix) + [last];
        assert j[..|j| - 1] == JsonEntries(prefix) && j[|j| - 1] == last;
        assert JsonEntries(dir) == j;
      } else {
        assert Classify(last) == Ignored;
        assert JsonEntries(dir) == JsonEntries(prefix);
      }
    }
  }

  predicate IsPrefix(a: seq<Country>, b: seq<Country>)
  {
    |a| <= |b| && b[..|a|] == a
  }

  /**
   * Countries are never reordered: the order after any prefix of the listing
   * is a prefix of the final order, so countries appear in the order of their
   * first counted entry.
   */
  lemma {:induction false} OrderOfFirstOccurrence(dir: seq<Entry>, k: nat)
    requires k <= |dir|
    ensures IsPrefix(Fold(dir[..k]).order, Fold(dir).order)
  {
    if k < |dir| {
      var prefix := dir[..|dir| - 1];
      assert prefix[..k] == dir[..k];
      OrderOfFirstOccurrence(prefix, k);
      assert Fold(dir) == Apply(Fold(prefix), Classify(dir[|dir| - 1]));
    } else {
      assert dir[..k] == dir;
    }
  }

  /**
   * Countries print in the order of their first counted entry: a country
   * counted within the first k entries precedes one first counted after them.
   */
  lemma FirstCountedPrintsFirst(dir: seq<Entry>, k: nat, c1: Country, c2: Country)
    requires k <= |dir|
    requires CountedIn(dir[..k], c1) && !CountedIn(dir[..k], c2) && CountedIn(dir, c2)
    ensures var order := Fold(dir).order;
      && c1 in order && c2 in order
      && forall i, j :: 0 <= i < |order| && 0 <= j < |order| && order[i] == c1 && order[j] == c2 ==> i < j
  {
    var prefix := Fold(dir[..k]);
    var order := Fold(dir).order;
    FoldKeys(dir[..k], c1);
    FoldKeys(dir[..k], c2);
    FoldKeys(dir, c2);
    FoldValid(dir[..k]);
    FoldValid(dir);
    OrderOfFirstOccurrence(dir, k);
    assert c1 in prefix.order && c2 !in prefix.order;
    assert order[..|prefix.order|] == prefix.order;
    forall i, j | 0 <= i < |order| && 0 <= j < |order| && order[i] == c1 && order[j] == c2
      ensures i < j
    {
      var i0 :| 0 <= i0 < |prefix.order| && prefix.order[i0] == c1;
      assert order[i0] == c1;
      assert i == i0;
    }
  }

  /** Only `results[0]` is inspected: envelopes agreeing on it get the same verdict. */
  lemma OnlyFirstResultInspected(name: string, top1: map<string, Value>, top2: map<string, Value>,
                                 first: Value, rest1: seq<Value>, rest2: seq<Value>)
    ensures Classify(Entry(name, Some(Obj(top1["results" := Arr([first] + rest1)]))))
         == Classify(Entry(name, Some(Obj(top2["results" := Arr([first] + rest2)]))))
  {
  }

  /** The stored user a scan would see, with a country and a gender. */
  function StoredUser(gender: string, country: string): Value
  {
    Obj(map["results" := Arr([Obj(map["gender" := Str(gender),
                                      "location" := Obj(map["country" := Str(country)])])])])
  }

  /** A stored user with a non-empty country and a valid gender is counted under that country. */
  lemma StoredUserCounted(name: string, gender: string, country: string)
    requires EndsWith(name, ".json") && country != ""
    requires gender == "male" || gender == "female"
    ensures Classify(Entry(name, Some(StoredUser(gender, country))))
         == Counted(CStr(country), if gender == "male" then Male else Female)
  {
    var user := Obj(map["gender" := Str(gender), "location" := Obj(map["country" := Str(country)])]);
    assert StoredUser(gender, country).fields["results"].items[0] == user;
    assert Get(user.fields["location"].fields, "country") == Str(country);
    assert Get(user.fields, "gender") == Str(gender);
  }

  /** Two French users and one undecodable file: one counter each, one logged name. */
  lemma TwoFrenchUsersAndACorruptFile()
    ensures var dir := [Entry("a.json", Some(StoredUser("female", "FR"))),
                        Entry("b.json", Some(StoredUser("male", "FR"))),
                        Entry("c.json", None)];
      Fold(dir).counts == map[CStr("FR") := Counts(1, 1)] && Logged(dir) == ["c.json"]
  {
    var dir := [Entry("a.json", Some(StoredUser("female", "FR"))),
                Entry("b.json", Some(StoredUser("male", "FR"))),
                Entry("c.json", None)];
    assert EndsWith("a.json", ".json") && EndsWith("b.json", ".json") && EndsWith("c.json", ".json");
    StoredUserCounted("a.json", "female", "FR");
    StoredUserCounted("b.json", "male", "FR");
    assert Classify(dir[2]) == Unreadable;
    var one, two := dir[..1], dir[..2];
    assert one[..0] == [] && one[0] == dir[0];
    assert two[..1] == one && two[1] == dir[1] && dir[..2] == two;
    assert Fold(one) == Stats(map[CStr("FR") := Counts(0, 1)], [CStr("FR")]);
    assert Fold(two) == Stats(map[CStr("FR") := Counts(1, 1)], [CStr("FR")]);
    assert Logged(one) == Logged([]) == [];
    assert Logged(two) == Logged(one) == [];
  }

  /** Each country with a counter is printed on exactly one line, with its counts. */
  lemma OneLinePerCountry(dir: seq<Entry>, c: Country)
    requires c in Fold(dir).counts
    ensures var s := Fold(dir);
      exists i :: 0 <= i < |s.order| && ReportLines(s)[i] == Line(c, s.counts[c])
        && forall j :: 0 <= j < |s.order| && j != i ==> s.order[j] != c
  {
    var s := Fold(dir);
    FoldValid(dir);
    assert c in s.order;
    var i :| 0 <= i < |s.order| && s.order[i] == c;
    assert ReportLines(s)[i] == Line(c, s.counts[c]);
  }

  lemma ConcatAt(x: string, sep: string, y: string, i: int)
    ensures 0 <= i < |x| ==> (x + sep + y)[i] == x[i]
    ensures |x| <= i < |x| + |sep| ==> (x + sep + y)[i] == sep[i - |x|]
  {
  }

  /** Digits followed by a non-digit: the split point is the same on both sides. */
  lemma DigitsThenSeparator(x1: string, x2: string, sep: string, y1: string, y2: string)
    requires AllDigits(x1) && AllDigits(x2) && |sep| > 0 && !IsDigit(sep[0])
    requires x1 + sep + y1 == x2 + sep + y2
    ensures x1 == x2 && y1 == y2
  {
    if |x1| < |x2| {
      ConcatAt(x1, sep, y1, |x1|);
      ConcatAt(x2, sep, y2, |x1|);
      assert false;
    } else if |x2| < |x1| {
      ConcatAt(x1, sep, y1, |x2|);
      ConcatAt(x2, sep, y2, |x2|);
      assert false;
    } else {
      assert x1 == (x1 + sep + y1)[..|x1|];
      assert x2 == (x2 + sep + y2)[..|x2|];
      assert y1 == (x1 + sep + y1)[|x1| + |sep|..];
      assert y2 == (x2 + sep + y2)[|x2| + |sep|..];
    }
  }

  /** The two numbers of a report line can be read back from it. */
  lemma SplitCounts(m1: string, f1: string, m2: string, f2: string)
    requires AllDigits(m1) && AllDigits(f1) && AllDigits(m2) && AllDigits(f2)
    requires m1 + " male, " + (f1 + " female") == m2 + " male, " + (f2 + " female")
    ensures m1 == m2 && f1 == f2
  {
    DigitsThenSeparator(m1, m2, " male, ", f1 + " female", f2 + " female");
    assert f1 == (f1 + " female")[..|f1|];
    assert f2 == (f2 + " female")[..|f2|];
  }

  /** A country's line determines its counts: the report loses no information. */
  lemma LineDeterminesCounts(c: Country, k1: Counts, k2: Counts)
    requires Line(c, k1) == Line(c, k2)
    ensures k1 == k2
  {
    var p := Display(c) + ": ";
    var m1, m2 := NatToString(k1.male), NatToString(k2.male);
    var f1, f2 := NatToString(k1.female), NatToString(k2.female);
    var rest1, rest2 := m1 + " male, " + (f1 + " female"), m2 + " male, " + (f2 + " female");
    assert rest1 == (p + rest1)[|p|..];
    assert rest2 == (p + rest2)[|p|..];
    SplitCounts(m1, f1, m2, f2);
    NatToStringInjective(k1.male, k2.male);
    NatToStringInjective(k1.female, k2.female);
  }
}
