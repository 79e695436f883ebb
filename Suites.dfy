/** Which instrumentation suites are active, resolved from LIBRATO_SUITES and
    LIBRATO_SUITES_EXCEPT. */
module Suites {
  import opened Text

  const SuitesVar: string := "LIBRATO_SUITES"
  const ExceptVar: string := "LIBRATO_SUITES_EXCEPT"

  /** The suites active when neither variable says otherwise. */
  const DefaultSuites: set<string> := {"rack"}

  /** The sentinels "all" and "none" are membership modes, not suite names. */
  datatype SuiteSet = AllSuites | NoSuites | Named(names: set<string>)

  /** `suites.include?(name)`. */
  predicate Includes(suites: SuiteSet, name: string): (r: bool)
    ensures suites.AllSuites? ==> r
    ensures r ==> !suites.NoSuites?
  {
    match suites
    case AllSuites => true
    case NoSuites => false
    case Named(names) => name in names
  }

  /** Every piece stripped of surrounding whitespace. */
  function TrimAll(pieces: seq<string>): (r: seq<string>)
    ensures |r| == |pieces|
    ensures forall i :: 0 <= i < |pieces| ==> r[i] == Trim(pieces[i])
  {
    if pieces == [] then [] else [Trim(pieces[0])] + TrimAll(pieces[1..])
  }

  /** The non-empty pieces, in order. */
  function DropEmpty(pieces: seq<string>): (r: seq<string>)
    ensures forall t :: t in r <==> t in pieces && t != []
  {
    if pieces == [] then []
    else if pieces[0] == [] then DropEmpty(pieces[1..])
    else [pieces[0]] + DropEmpty(pieces[1..])
  }

  /** The suite names of a comma-separated list, each stripped of surrounding
      whitespace; empty names are dropped. */
  function Tokens(value: string): (r: seq<string>)
    ensures forall t :: t in r ==> t != [] && ',' !in t && Trim(t) == t
  {
    var pieces := Split(value, ',');
    var trimmed := TrimAll(pieces);
    var r := DropEmpty(trimmed);
    forall t | t in r ensures ',' !in t && Trim(t) == t {
      var i :| 0 <= i < |trimmed| && trimmed[i] == t;
      TrimIdempotent(pieces[i]);
      TrimWithin(pieces[i]);
    }
    r
  }

  /** The value is the sentinel `all`, ignoring surrounding whitespace and case. */
  predicate NamesAll(value: string): (r: bool)
    ensures r ==> |Trim(value)| == 3 && !NamesNone(value)
  {
    EqualIgnoringCase(Trim(value), "all")
  }

  /** The value is the sentinel `none`, ignoring surrounding whitespace and case. */
  predicate NamesNone(value: string): (r: bool)
    ensures r ==> |Trim(value)| == 4
  {
    EqualIgnoringCase(Trim(value), "none")
  }

  /** LIBRATO_SUITES is set and decides membership on its own. */
  predicate InclusionGiven(env: map<string, string>) {
    SuitesVar in env && (NamesAll(env[SuitesVar]) || NamesNone(env[SuitesVar]) || Tokens(env[SuitesVar]) != [])
  }

  /** The active suites for an environment. */
  function Resolve(env: map<string, string>): (r: SuiteSet)
    ensures SuitesVar in env && NamesAll(env[SuitesVar]) ==>
      forall name :: Includes(r, name)
    ensures SuitesVar in env && NamesNone(env[SuitesVar]) ==>
      forall name :: !Includes(r, name)
    ensures SuitesVar in env && !NamesAll(env[SuitesVar]) && !NamesNone(env[SuitesVar]) && Tokens(env[SuitesVar]) != [] ==>
      forall name :: Includes(r, name) <==> name in Tokens(env[SuitesVar])
    ensures !InclusionGiven(env) && ExceptVar in env ==>
      forall name :: Includes(r, name) <==> name in DefaultSuites && name !in Tokens(env[ExceptVar])
    ensures !InclusionGiven(env) && ExceptVar !in env ==>
      forall name :: Includes(r, name) <==> name in DefaultSuites
  {
    if SuitesVar in env && NamesAll(env[SuitesVar]) then AllSuites
    else if SuitesVar in env && NamesNone(env[SuitesVar]) then NoSuites
    else if SuitesVar in env && Tokens(env[SuitesVar]) != [] then Named(set t | t in Tokens(env[SuitesVar]))
    else if ExceptVar in env then Named(DefaultSuites - set t | t in Tokens(env[ExceptVar]))
    else Named(DefaultSuites)
  }

  /** Without an inclusion list the exclusion list can only remove default suites. */
  lemma ExclusionOnlyRemoves(env: map<string, string>, name: string)
    requires !InclusionGiven(env)
    requires Includes(Resolve(env), name)
    ensures name in DefaultSuites
  {
  }

  /** A named suite never carries surrounding whitespace or a comma. */
  lemma NamedSuitesAreClean(env: map<string, string>, name: string)
    requires Resolve(env).Named? && Includes(Resolve(env), name)
    ensures Trim(name) == name && ',' !in name
  {
    if !InclusionGiven(env) {
      assert name == "rack";
      TrimUnchanged(name);
    }
  }

  /** The list used in the suite tests splits into four names. */
  lemma FourNames()
    ensures Tokens("abc, jkl,prq , xyz") == ["abc", "jkl", "prq", "xyz"]
  {
    var pieces := ["abc", " jkl", "prq ", " xyz"];
    JoinFour();
    SplitJoin(pieces, ',');
    TrimFour();
    NonEmptyKept(["abc", "jkl", "prq", "xyz"]);
  }

  lemma TrimFour()
    ensures TrimAll(["abc", " jkl", "prq ", " xyz"]) == ["abc", "jkl", "prq", "xyz"]
  {
    TrimAllOfFour("abc", " jkl", "prq ", " xyz");
    TrimUnchanged("abc");
    TrimAfterOneSpace(" jkl");
    TrimBeforeOneSpace("prq ");
    assert "prq "[..3] == "prq";
    TrimAfterOneSpace(" xyz");
  }

  lemma TrimAllOfFour(a: string, b: string, c: string, d: string)
    ensures TrimAll([a, b, c, d]) == [Trim(a), Trim(b), Trim(c), Trim(d)]
  {
  }

  lemma JoinFour()
    ensures Join(["abc", " jkl", "prq ", " xyz"], ',') == "abc, jkl,prq , xyz"
  {
    JoinOfFour("abc", " jkl", "prq ", " xyz", ',');
  }

  lemma JoinOfFour(a: string, b: string, c: string, d: string, sep: char)
    ensures Join([a, b, c, d], sep) == a + [sep] + b + [sep] + c + [sep] + d
  {
    assert [c, d][1..] == [d];
    assert Join([c, d], sep) == c + [sep] + d;
    assert [b, c, d][1..] == [c, d];
    assert Join([b, c, d], sep) == b + [sep] + (c + [sep] + d);
    assert [a, b, c, d][1..] == [b, c, d];
    assert Join([a, b, c, d], sep) == a + [sep] + (b + [sep] + (c + [sep] + d));
  }

  /** A list without empty names is kept as it is. */
  lemma {:induction false} NonEmptyKept(names: seq<string>)
    requires forall i :: 0 <= i < |names| ==> names[i] != []
    ensures DropEmpty(names) == names
  {
    if names != [] {
      NonEmptyKept(names[1..]);
      assert [names[0]] + names[1..] == names;
    }
  }

  lemma OneName(name: string)
    requires name != [] && ',' !in name && !IsSpace(name[0]) && !IsSpace(name[|name| - 1])
    ensures Tokens(name) == [name]
  {
    SplitJoin([name], ',');
    assert Split(name, ',') == [name];
    TrimUnchanged(name);
    assert TrimAll([name]) == [name];
    NonEmptyKept([name]);
  }

  /** With neither variable set, `rack` is active and `foo` is not. */
  lemma DefaultsIncludeRack()
    ensures Includes(Resolve(map[]), "rack")
    ensures !Includes(Resolve(map[]), "foo")
  {
  }

  /** With only an exclusion list, the defaults minus its names are active. */
  lemma ExclusionAlone(value: string, name: string)
    ensures Includes(Resolve(map[ExceptVar := value]), name) <==> name == "rack" && name !in Tokens(value)
  {
    var env := map[ExceptVar := value];
    assert SuitesVar !in env;
  }

  /** With only an inclusion list that is not a sentinel, exactly its names are active. */
  lemma InclusionAlone(value: string, name: string)
    requires !NamesAll(value) && !NamesNone(value) && Tokens(value) != []
    ensures Includes(Resolve(map[SuitesVar := value]), name) <==> name in Tokens(value)
  {
  }

  /** A value longer than either sentinel names neither. */
  lemma NotSentinel(value: string)
    requires |Trim(value)| > 4
    ensures !NamesAll(value) && !NamesNone(value)
  {
  }

  /** Excluding a single name other than `rack` keeps `rack` active. */
  lemma ExclusionOfOtherName(value: string)
    requires value != [] && ',' !in value && !IsSpace(value[0]) && !IsSpace(value[|value| - 1])
    requires value != "rack"
    ensures Includes(Resolve(map[ExceptVar := value]), "rack")
  {
    OneName(value);
    ExclusionAlone(value, "rack");
  }

  /** Excluding `foo` keeps `rack`; excluding `rack` drops it. */
  lemma ExclusionOfOneName()
    ensures Includes(Resolve(map[ExceptVar := "foo"]), "rack")
    ensures !Includes(Resolve(map[ExceptVar := "rack"]), "rack")
  {
    ExclusionOfOtherName("foo");
    assert !Includes(Resolve(map[ExceptVar := "rack"]), "rack") by {
      OneName("rack");
      ExclusionAlone("rack", "rack");
    }
  }

  /** An inclusion list activates exactly its whitespace-trimmed names. */
  lemma InclusionList(value: string, name: string)
    requires value == "abc, jkl,prq , xyz"
    ensures Includes(Resolve(map[SuitesVar := value]), name) <==> name in ["abc", "jkl", "prq", "xyz"]
  {
    InclusionListResolves(value, name);
    FourNames();
  }

  lemma InclusionListResolves(value: string, name: string)
    requires value == "abc, jkl,prq , xyz"
    ensures Includes(Resolve(map[SuitesVar := value]), name) <==> name in Tokens(value)
  {
    assert Trim(value) == value by {
      TrimUnchanged(value);
    }
    assert Tokens(value) != [] by {
      FourNames();
    }
    NotSentinel(value);
    InclusionAlone(value, name);
  }

  /** An exclusion list deactivates each of its whitespace-trimmed names. */
  lemma ExclusionList(name: string)
    requires name in ["abc", "jkl", "prq", "xyz"]
    ensures !Includes(Resolve(map[ExceptVar := "abc, jkl,prq , xyz"]), name)
  {
    FourNames();
  }

  /** `all` activates every suite; `NONE`, in any case, deactivates every suite. */
  lemma Sentinels(name: string)
    ensures Includes(Resolve(map[SuitesVar := "all"]), name)
    ensures !Includes(Resolve(map[SuitesVar := "NONE"]), name)
  {
    assert NamesAll("all") by {
      TrimUnchanged("all");
    }
    assert NamesNone("NONE") by {
      TrimUnchanged("NONE");
    }
  }
}
