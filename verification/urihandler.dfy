/**
 * AbstractUriHandler.java: the set of supported schemes, a TreeSet ordered
 * by String.CASE_INSENSITIVE_ORDER and filled once by the constructor.
 *
 * A TreeSet is the key set of a TreeMap, and TreeMap.put keeps the key it
 * already holds; so the set after the constructor is the key sequence of
 * the case-insensitive grouping of Headers, and its properties are carried
 * over from there.
 */
module UriHandlers {
  import opened Ascii
  import opened Wrappers
  import opened Headers

  /** TreeSet.add under the case-insensitive order: a new scheme goes in its place, a known one is kept as first spelt. */
  function AddScheme(ss: seq<string>, s: string): (r: seq<string>)
    decreases |ss|
  {
    if ss == [] then [s]
    else if EqualsIgnoreCase(s, ss[0]) then ss
    else if CiLess(s, ss[0]) then [s] + ss
    else [ss[0]] + AddScheme(ss[1..], s)
  }

  /** The set after addAll(given), element by element. */
  function SchemeSet(given: seq<string>): seq<string>
    decreases |given|
  {
    if given == [] then [] else AddScheme(SchemeSet(given[..|given| - 1]), given[|given| - 1])
  }

  /** TreeSet.contains under the case-insensitive order. */
  predicate Contains(ss: seq<string>, s: string) {
    exists i :: 0 <= i < |ss| && EqualsIgnoreCase(ss[i], s)
  }

  class UriHandler {
    ghost const given: seq<string>
    const schemes: seq<string>

    /** The constructor: addAll of the given schemes into an empty set. */
    constructor (given: seq<string>)
      ensures this.given == given && schemes == SchemeSet(given)
    {
      var added: seq<string> := [];
      var i := 0;
      while i < |given|
        invariant 0 <= i <= |given|
        invariant added == SchemeSet(given[..i])
      {
        assert given[..i + 1][..i] == given[..i];
        added := AddScheme(added, given[i]);
        i := i + 1;
      }
      assert given[..i] == given;
      this.given := given;
      schemes := added;
    }

    /** getSupportedSchemes: the set fixed by the constructor. */
    function GetSupportedSchemes(): seq<string> {
      schemes
    }

    predicate IsSchemeSupported(scheme: string) {
      Contains(schemes, scheme)
    }
  }

  // ---------------------------------------------------------------------
  // The scheme set as the keys of a grouping
  // ---------------------------------------------------------------------

  function Keys(gs: seq<Group>): (r: seq<string>)
    ensures |r| == |gs| && forall k :: 0 <= k < |gs| ==> r[k] == gs[k].key
  {
    if gs == [] then [] else [gs[0].key] + Keys(gs[1..])
  }

  /** Each scheme as an entry of the backing map. */
  function Entries(given: seq<string>): (r: seq<Header>)
    ensures |r| == |given| && forall j :: 0 <= j < |given| ==> r[j] == Header(given[j], "")
  {
    seq(|given|, j requires 0 <= j < |given| => Header(given[j], ""))
  }

  /** Adding a scheme to the set is adding an entry to the map, seen through its keys. */
  lemma {:induction false} KeysOfAdd(gs: seq<Group>, h: Header)
    ensures Keys(AddToGroups(gs, h)) == AddScheme(Keys(gs), h.name)
    decreases |gs|
  {
    if gs != [] {
      assert Keys(gs)[1..] == Keys(gs[1..]);
      if !EqualsIgnoreCase(h.name, gs[0].key) && !CiLess(h.name, gs[0].key) {
        KeysOfAdd(gs[1..], h);
      } else if EqualsIgnoreCase(h.name, gs[0].key) {
        assert Keys(AddToGroups(gs, h)) == Keys(gs);
      }
    }
  }

  lemma {:induction false} SchemeSetIsKeys(given: seq<string>)
    ensures SchemeSet(given) == Keys(GroupSpec(Entries(given)))
    decreases |given|
  {
    if given != [] {
      var n := |given| - 1;
      SchemeSetIsKeys(given[..n]);
      assert Entries(given)[..n] == Entries(given[..n]);
      KeysOfAdd(GroupSpec(Entries(given[..n])), Entries(given)[n]);
    }
  }

  // ---------------------------------------------------------------------
  // Properties of the scheme set
  // ---------------------------------------------------------------------

  /** The set is strictly increasing in the case-insensitive order, so no two schemes differ only in case. */
  lemma SchemeSetSorted(given: seq<string>)
    ensures forall i, j :: 0 <= i < j < |SchemeSet(given)| ==> CiLess(SchemeSet(given)[i], SchemeSet(given)[j])
    ensures forall i, j :: 0 <= i < j < |SchemeSet(given)| ==> !EqualsIgnoreCase(SchemeSet(given)[i], SchemeSet(given)[j])
  {
    SchemeSetIsKeys(given);
    GroupSpecIsGrouping(Entries(given));
    var ss := SchemeSet(given);
    forall i, j | 0 <= i < j < |ss| ensures !EqualsIgnoreCase(ss[i], ss[j]) {
      CiLessExcludesEqual(ss[i], ss[j]);
    }
  }

  /** Every given scheme is in the set, in some spelling. */
  lemma GivenAreContained(given: seq<string>, j: nat)
    requires j < |given|
    ensures Contains(SchemeSet(given), given[j])
  {
    SchemeSetIsKeys(given);
    var es := Entries(given);
    GroupSpecIsGrouping(es);
    assert HasKey(GroupSpec(es), es[j].name);
    var k := KeyIndex(GroupSpec(es), es[j].name);
    assert EqualsIgnoreCase(SchemeSet(given)[k], given[j]);
  }

  /** Each member of the set is one of the given schemes, spelt as it was first given in any case. */
  lemma MemberIsFirstSpelling(given: seq<string>, k: nat)
    requires k < |SchemeSet(given)|
    ensures exists j :: 0 <= j < |given| && given[j] == SchemeSet(given)[k] && FirstOfItsName(given, j)
  {
    var es := Entries(given);
    SchemeSetIsKeys(given);
    assert KeyRecords(GroupSpec(es)[k], es) by { RecordedAt(es, k); }
    KeyRecordsFirstSpelling(GroupSpec(es)[k], es);
    FirstEntry(given, SchemeSet(given)[k]);
  }

  /** No scheme given before position j equals given[j] ignoring case. */
  predicate FirstOfItsName(given: seq<string>, j: nat)
    requires j < |given|
  {
    forall i :: 0 <= i < j ==> !EqualsIgnoreCase(given[i], given[j])
  }

  lemma RecordedAt(hs: seq<Header>, k: nat)
    requires k < |GroupSpec(hs)|
    ensures KeyRecords(GroupSpec(hs)[k], hs)
  {
    GroupSpecIsGrouping(hs);
  }

  /** The first entry matching a name that is spelt as the name gives a first-given scheme. */
  lemma FirstEntry(given: seq<string>, key: string)
    requires FirstNamed(Entries(given), key).Some? && FirstNamed(Entries(given), key).value.name == key
    ensures exists j :: 0 <= j < |given| && given[j] == key && FirstOfItsName(given, j)
  {
    var es := Entries(given);
    var j :| 0 <= j < |es| && es[j] == FirstNamed(es, key).value && NoneNamed(es[..j], key);
    forall i | 0 <= i < j ensures !EqualsIgnoreCase(given[i], given[j]) {
      assert es[..j][i] == es[i];
    }
  }

  /** isSchemeSupported(s) holds iff s equals some given scheme ignoring case. */
  lemma SchemeSupportedIff(given: seq<string>, s: string)
    ensures Contains(SchemeSet(given), s) <==> exists j :: 0 <= j < |given| && EqualsIgnoreCase(given[j], s)
  {
    var ss := SchemeSet(given);
    if Contains(ss, s) {
      var k :| 0 <= k < |ss| && EqualsIgnoreCase(ss[k], s);
      MemberIsFirstSpelling(given, k);
      var j :| 0 <= j < |given| && given[j] == ss[k];
      assert EqualsIgnoreCase(given[j], s);
    }
    if exists j :: 0 <= j < |given| && EqualsIgnoreCase(given[j], s) {
      var j :| 0 <= j < |given| && EqualsIgnoreCase(given[j], s);
      GivenAreContained(given, j);
      var k :| 0 <= k < |ss| && EqualsIgnoreCase(ss[k], given[j]);
      assert EqualsIgnoreCase(ss[k], s);
    }
  }

  /** A handler given no schemes supports none. */
  lemma NoSchemesSupportsNothing(s: string)
    ensures !Contains(SchemeSet([]), s)
  {
  }
}
