/** The endpoints that read the names of the cleaned corpus files rather than
    their text: `/countries`, `/visa-types/{country}` and the counting part
    of `/stats`. File names follow `Country_Country_VisaType_Eligibility.txt`.
    The listing of the corpus directory is `None` when the directory does not
    exist. */
module Listings {
  import opened Results
  import opened PyStrings
  import opened SortedStrings

  /** `/countries` files `name` under country `c`: a text file whose name has
      at least two `_`-separated fields, the first of which is `c`. */
  predicate CountryOf(name: string, c: string) {
    IsTxt(name) && |Split(name, '_')| >= 2 && Split(name, '_')[0] == c
  }

  /** The `_`-separated fields of a name once every `.txt` in it is removed. */
  function Fields(name: string): seq<string> {
    Split(RemoveAll(name, ".txt"), '_')
  }

  /** `/visa-types/{country}` files `name` under visa type `v`: a text file
      starting with `country_` whose third field, once `.txt` is removed, is `v`. */
  predicate VisaTypeOf(name: string, country: string, v: string) {
    StartsWith(name, country + "_") && IsTxt(name) && |Fields(name)| >= 3 && Fields(name)[2] == v
  }

  /** `/stats` counts `c` as a country of `name`: a text file with at least
      three fields, the first of which is `c`. */
  predicate StatsCountryOf(name: string, c: string) {
    IsTxt(name) && |Split(name, '_')| >= 3 && Split(name, '_')[0] == c
  }

  /** `/stats` counts `v` as a visa type of `name`: its third field, taken from
      the name with `.txt` still on it. */
  predicate StatsVisaTypeOf(name: string, v: string) {
    IsTxt(name) && |Split(name, '_')| >= 3 && Split(name, '_')[2] == v
  }

  /** `/countries`: every country some text file is filed under, once each,
      sorted, and how many there are. */
  method AvailableCountries(dir: Option<seq<string>>) returns (countries: seq<string>, count: nat)
    ensures StrictlySorted(countries)
    ensures forall c :: c in countries <==> dir.Some? && exists n :: n in dir.value && CountryOf(n, c)
    ensures count == |countries|
  {
    var found: set<string> := {};
    if dir.Some? {
      var names := dir.value;
      for i := 0 to |names|
        invariant forall c :: c in found <==> exists n :: n in names[..i] && CountryOf(n, c)
      {
        var name := names[i];
        assert names[..i + 1] == names[..i] + [name];
        if IsTxt(name) {
          var parts := Split(name, '_');
          if |parts| >= 2 {
            found := found + {parts[0]};
            assert CountryOf(name, parts[0]);
          }
        }
      }
      assert names[..|names|] == names;
    }
    countries := SortedList(found);
    count := |found|;
  }

  /** `/visa-types/{country}`: every visa type of the country's text files,
      once each, sorted, and how many there are. */
  method VisaTypes(dir: Option<seq<string>>, country: string) returns (visaTypes: seq<string>, count: nat)
    ensures StrictlySorted(visaTypes)
    ensures forall v :: v in visaTypes <==> dir.Some? && exists n :: n in dir.value && VisaTypeOf(n, country, v)
    ensures count == |visaTypes|
  {
    var found: set<string> := {};
    if dir.Some? {
      var names := dir.value;
      for i := 0 to |names|
        invariant forall v :: v in found <==> exists n :: n in names[..i] && VisaTypeOf(n, country, v)
      {
        var name := names[i];
        assert names[..i + 1] == names[..i] + [name];
        if StartsWith(name, country + "_") && IsTxt(name) {
          var parts := Split(RemoveAll(name, ".txt"), '_');
          if |parts| >= 3 {
            found := found + {parts[2]};
            assert VisaTypeOf(name, country, parts[2]);
          }
        }
      }
      assert names[..|names|] == names;
    }
    visaTypes := SortedList(found);
    count := |found|;
  }

  /** The counting loop of `/stats`: the number of text files, and the sets of
      countries and visa types read from the names with three fields or more. */
  method CountCorpus(dir: Option<seq<string>>) returns (documents: nat, countries: set<string>, visaTypes: set<string>)
    ensures documents == if dir.Some? then |Filter(dir.value, IsTxt)| else 0
    ensures forall c :: c in countries <==> dir.Some? && exists n :: n in dir.value && StatsCountryOf(n, c)
    ensures forall v :: v in visaTypes <==> dir.Some? && exists n :: n in dir.value && StatsVisaTypeOf(n, v)
  {
    documents, countries, visaTypes := 0, {}, {};
    if dir.Some? {
      var names := dir.value;
      for i := 0 to |names|
        invariant documents == |Filter(names[..i], IsTxt)|
        invariant forall c :: c in countries <==> exists n :: n in names[..i] && StatsCountryOf(n, c)
        invariant forall v :: v in visaTypes <==> exists n :: n in names[..i] && StatsVisaTypeOf(n, v)
      {
        var name := names[i];
        assert names[..i + 1] == names[..i] + [name];
        FilterAppend(names[..i], [name], IsTxt);
        if IsTxt(name) {
          documents := documents + 1;
          var parts := Split(name, '_');
          if |parts| >= 3 {
            countries := countries + {parts[0]};
            visaTypes := visaTypes + {parts[2]};
            assert StatsCountryOf(name, parts[0]) && StatsVisaTypeOf(name, parts[2]);
          }
        }
      }
      assert names[..|names|] == names;
    }
  }

  /** A text file is filed under country `c` exactly when its name starts with
      `c` followed by `_` and `c` holds no `_`. */
  lemma CountryOfIsPrefix(name: string, c: string)
    ensures CountryOf(name, c) <==> IsTxt(name) && '_' !in c && StartsWith(name, c + "_")
  {
    var parts := Split(name, '_');
    if CountryOf(name, c) {
      JoinSplit(name, '_');
      assert name == parts[0] + ['_'] + Join(parts[1..], '_');
      assert (c + "_") == parts[0] + ['_'];
    }
    if IsTxt(name) && '_' !in c && StartsWith(name, c + "_") {
      var rest := name[|c| + 1..];
      assert name == c + ['_'] + rest;
      SplitPrefix(c, rest, '_');
    }
  }

  /** Splitting `a_b_t` at `_`, for fields `a` and `b` without `_`. */
  lemma SplitTwoFields(a: string, b: string, t: string)
    requires '_' !in a && '_' !in b
    ensures Split(a + "_" + b + "_" + t, '_') == [a, b] + Split(t, '_')
  {
    assert a + "_" + b + "_" + t == a + ['_'] + (b + ['_'] + t);
    SplitPrefix(b, t, '_');
    SplitPrefix(a, b + ['_'] + t, '_');
  }

  /** The fields of `stem.txt`, when `stem` holds no `.`. */
  lemma FieldsOfTxt(stem: string)
    requires '.' !in stem
    ensures IsTxt(stem + ".txt")
    ensures Fields(stem + ".txt") == Split(stem, '_')
  {
    RemoveAllSuffix(stem, ".txt");
    assert (stem + ".txt")[|stem|..] == ".txt";
  }

  /** On a name of the documented form `Country_Country_VisaType_Rest.txt`
      (fields without `_`, no `.` anywhere) the three endpoints agree: the name
      is filed under its first field as country, under its third as visa
      type, and `/stats` reads the same two fields. */
  lemma WellFormedNameFields(country: string, x: string, v: string, rest: string)
    requires '_' !in country && '_' !in x && '_' !in v
    requires '.' !in country && '.' !in x && '.' !in v && '.' !in rest
    ensures var name := country + "_" + x + "_" + v + "_" + rest + ".txt";
      && CountryOf(name, country)
      && VisaTypeOf(name, country, v)
      && StatsCountryOf(name, country)
      && StatsVisaTypeOf(name, v)
  {
    var tail := v + "_" + rest;
    var stem := country + "_" + x + "_" + tail;
    var name := country + "_" + x + "_" + v + "_" + rest + ".txt";
    assert name == stem + ".txt" == country + "_" + x + "_" + (tail + ".txt");
    assert '.' !in stem by {
      assert stem == country + ['_'] + x + ['_'] + v + ['_'] + rest;
    }
    FieldsOfTxt(stem);
    SplitTwoFields(country, x, tail);
    SplitTwoFields(country, x, tail + ".txt");
    assert tail == v + ['_'] + rest && tail + ".txt" == v + ['_'] + (rest + ".txt");
    SplitPrefix(v, rest, '_');
    SplitPrefix(v, rest + ".txt", '_');
    assert name[..|country| + 1] == country + "_";
  }

  /** On a three-field name `a_b_c.txt` the endpoints disagree: `/visa-types`
      reports the visa type `c` while `/stats` counts it as `c.txt`. */
  lemma StatsKeepsTxtOnThirdField(a: string, b: string, c: string)
    requires '_' !in a && '_' !in b && '_' !in c
    requires '.' !in a && '.' !in b && '.' !in c
    ensures VisaTypeOf(a + "_" + b + "_" + c + ".txt", a, c)
    ensures StatsVisaTypeOf(a + "_" + b + "_" + c + ".txt", c + ".txt")
    ensures !StatsVisaTypeOf(a + "_" + b + "_" + c + ".txt", c)
  {
    var stem := a + "_" + b + "_" + c;
    var name := a + "_" + b + "_" + c + ".txt";
    assert name == stem + ".txt" == a + "_" + b + "_" + (c + ".txt");
    assert '.' !in stem by {
      assert stem == a + ['_'] + b + ['_'] + c;
    }
    FieldsOfTxt(stem);
    SplitTwoFields(a, b, c);
    SplitTwoFields(a, b, c + ".txt");
    SplitNoSep(c, '_');
    assert '_' !in c + ".txt";
    SplitNoSep(c + ".txt", '_');
    assert name[..|a| + 1] == a + "_";
  }

  /** `/visa-types` deletes every `.txt` in a name, not only the suffix: for
      `a_b_c.txtd.txt` it reports the visa type `cd`, while `/stats` reads the
      third field with both `.txt` still in it. */
  lemma InnerTxtIsRemoved(a: string, b: string, c: string, d: string)
    requires '_' !in a && '_' !in b && '_' !in c && '_' !in d
    requires '.' !in a && '.' !in b && '.' !in c && '.' !in d
    ensures VisaTypeOf(a + "_" + b + "_" + c + ".txt" + d + ".txt", a, c + d)
    ensures StatsVisaTypeOf(a + "_" + b + "_" + c + ".txt" + d + ".txt", c + ".txt" + d + ".txt")
  {
    var stem := a + "_" + b + "_" + c;
    var name := a + "_" + b + "_" + c + ".txt" + d + ".txt";
    assert name == stem + ".txt" + (d + ".txt");
    assert name == a + "_" + b + "_" + (c + ".txt" + d + ".txt");
    assert '.' !in stem by {
      assert stem == a + ['_'] + b + ['_'] + c;
    }
    RemoveAllConcat(stem, ".txt", d + ".txt");
    RemoveAllNoStart(stem, ".txt");
    RemoveAllSuffix(d, ".txt");
    assert RemoveAll(name, ".txt") == a + "_" + b + "_" + (c + d);
    assert '_' !in c + d;
    SplitTwoFields(a, b, c + d);
    SplitNoSep(c + d, '_');
    assert '_' !in c + ".txt" + d + ".txt";
    SplitTwoFields(a, b, c + ".txt" + d + ".txt");
    SplitNoSep(c + ".txt" + d + ".txt", '_');
    assert name[..|a| + 1] == a + "_";
    assert name[|name| - 4..] == ".txt";
  }

  /** A two-field name `a_b.txt` gives `/countries` the country `a`, which
      `/stats` does not count. */
  lemma CountriesCountsTwoFieldNames(a: string, b: string)
    requires '_' !in a && '_' !in b
    ensures CountryOf(a + "_" + b + ".txt", a)
    ensures forall c :: !StatsCountryOf(a + "_" + b + ".txt", c)
  {
    var name := a + "_" + b + ".txt";
    assert name == a + ['_'] + (b + ".txt");
    assert '_' !in b + ".txt";
    SplitPrefix(a, b + ".txt", '_');
    SplitNoSep(b + ".txt", '_');
    assert name[|name| - 4..] == ".txt";
  }
}
