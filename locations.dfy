/** The location resolver: which configured location a catalog request
    targets, chosen from the query parameters by a first-match scan. */
module Locations {
  import opened Php

  /** A configured location: a title pattern, a status and a contact address. */
  datatype Location = Location(title: string, status: string, email: string)

  /** The configured locations, as the ordered key => location array. */
  type Table = seq<(Key, Location)>

  /** The query parameters of the request. */
  type Query = map<string, string>

  /** `preg_match(pattern, subject)` returning 1; left uninterpreted. */
  type Matcher = (string, string) -> bool

  /** PHP arrays never hold a key twice. */
  ghost predicate DistinctKeys(t: Table)
  {
    forall i, j :: 0 <= i < j < |t| ==> t[i].0 != t[j].0
  }

  /** Entry `loc` serves a request for `location` with status `status`:
      its title pattern matches and its status is strictly equal. */
  predicate Serves(pregMatch: Matcher, loc: Location, location: string, status: string)
  {
    pregMatch(loc.title, location) && loc.status == status
  }

  /** One of the query keys Permalink, Location and Status is absent or
      PHP-empty. */
  predicate MissingRequired(query: Query)
  {
    Empty(Lookup(query, "Permalink")) || Empty(Lookup(query, "Location")) || Empty(Lookup(query, "Status"))
  }

  /** The key of the first entry of `t` that serves the request, if any. */
  function Scan(t: Table, pregMatch: Matcher, location: string, status: string): (r: Option<Key>)
    ensures r.Some? ==> exists i :: 0 <= i < |t| && t[i].0 == r.value && Serves(pregMatch, t[i].1, location, status)
    decreases |t|
  {
    if t == [] then None
    else if Serves(pregMatch, t[0].1, location, status) then Some(t[0].0)
    else
      var r := Scan(t[1..], pregMatch, location, status);
      assert r.Some? ==> exists i :: 0 <= i < |t| && t[i].0 == r.value && Serves(pregMatch, t[i].1, location, status) by {
        if r.Some? {
          var i :| 0 <= i < |t[1..]| && t[1..][i].0 == r.value && Serves(pregMatch, t[1..][i].1, location, status);
          assert t[i + 1] == t[1..][i];
        }
      }
      r
  }

  /** `getLocation`: false (None) unless Permalink, Location and Status are all
      given, and otherwise the key of the first serving entry. */
  function GetLocation(query: Query, t: Table, pregMatch: Matcher): (r: Option<Key>)
    ensures MissingRequired(query) ==> r == None
  {
    if Empty(Lookup(query, "Permalink")) then None
    else if Empty(Lookup(query, "Location")) then None
    else if Empty(Lookup(query, "Status")) then None
    else Scan(t, pregMatch, query["Location"], query["Status"])
  }

  /** `!empty($args['location'])`: a location was resolved and its key is not
      PHP-empty (a location stored under key 0 or "" reads as no location). */
  function Resolved(k: Option<Key>): (r: bool)
    ensures r <==> k.Some? && k.value != IntKey(0) && k.value != StrKey("") && k.value != StrKey("0")
  {
    k.Some? && !KeyEmpty(k.value)
  }

  /** The scan returns the key of the first serving entry, and nothing when
      no entry serves. */
  lemma {:induction false} ScanFirstMatch(t: Table, pregMatch: Matcher, location: string, status: string)
    ensures Scan(t, pregMatch, location, status).None? <==>
              forall i :: 0 <= i < |t| ==> !Serves(pregMatch, t[i].1, location, status)
    ensures Scan(t, pregMatch, location, status).Some? ==>
              exists i :: 0 <= i < |t| && t[i].0 == Scan(t, pregMatch, location, status).value &&
                Serves(pregMatch, t[i].1, location, status) &&
                forall j :: 0 <= j < i ==> !Serves(pregMatch, t[j].1, location, status)
    decreases |t|
  {
    if t != [] && !Serves(pregMatch, t[0].1, location, status) {
      ScanFirstMatch(t[1..], pregMatch, location, status);
      if Scan(t, pregMatch, location, status).Some? {
        var i :| 0 <= i < |t[1..]| && t[1..][i].0 == Scan(t, pregMatch, location, status).value &&
                 Serves(pregMatch, t[1..][i].1, location, status) &&
                 forall j :: 0 <= j < i ==> !Serves(pregMatch, t[1..][j].1, location, status);
        assert forall j :: 0 <= j < i + 1 ==> !Serves(pregMatch, t[j].1, location, status) by {
          forall j | 0 <= j < i + 1 ensures !Serves(pregMatch, t[j].1, location, status) {
            if j > 0 { assert t[j] == t[1..][j - 1]; }
          }
        }
        assert t[i + 1] == t[1..][i];
      } else {
        forall i | 0 <= i < |t| ensures !Serves(pregMatch, t[i].1, location, status) {
          if i > 0 { assert t[i] == t[1..][i - 1]; }
        }
      }
    }
  }

  /** The scan picks the serving entry at index `i` exactly when no earlier
      entry serves: ties go to the first in declaration order. */
  lemma {:induction false} ScanPicksEarliest(t: Table, pregMatch: Matcher, location: string, status: string, i: nat)
    requires i < |t| && Serves(pregMatch, t[i].1, location, status)
    requires forall j :: 0 <= j < i ==> !Serves(pregMatch, t[j].1, location, status)
    ensures Scan(t, pregMatch, location, status) == Some(t[i].0)
    decreases i
  {
    if i > 0 {
      assert t[1..][i - 1] == t[i];
      forall j | 0 <= j < i - 1 ensures !Serves(pregMatch, t[1..][j].1, location, status) {
        assert t[1..][j] == t[j + 1];
      }
      ScanPicksEarliest(t[1..], pregMatch, location, status, i - 1);
    }
  }

  /** `getLocation` in full: a key is returned exactly when all three required
      parameters are present and some entry serves; the key is that of the
      first serving entry. */
  lemma GetLocationFirstMatch(query: Query, t: Table, pregMatch: Matcher)
    ensures GetLocation(query, t, pregMatch).Some? <==>
              !MissingRequired(query) &&
              exists i :: 0 <= i < |t| && Serves(pregMatch, t[i].1, query["Location"], query["Status"])
    ensures GetLocation(query, t, pregMatch).Some? ==>
              exists i :: 0 <= i < |t| && t[i].0 == GetLocation(query, t, pregMatch).value &&
                Serves(pregMatch, t[i].1, query["Location"], query["Status"]) &&
                forall j :: 0 <= j < i ==> !Serves(pregMatch, t[j].1, query["Location"], query["Status"])
  {
    if !MissingRequired(query) {
      ScanFirstMatch(t, pregMatch, query["Location"], query["Status"]);
    }
  }

  /** Query keys other than the three the resolver reads do not change its
      answer (the send step resolves again after adding Record_Number). */
  lemma GetLocationIgnoresOtherKeys(query: Query, t: Table, pregMatch: Matcher, k: string, v: string)
    requires k != "Permalink" && k != "Location" && k != "Status"
    ensures GetLocation(query[k := v], t, pregMatch) == GetLocation(query, t, pregMatch)
  {
  }

  /** `$this->locations[$key]`: the location stored under `k`. */
  function Stored(t: Table, k: Key): (loc: Location)
    requires exists i :: 0 <= i < |t| && t[i].0 == k
    ensures exists i :: 0 <= i < |t| && t[i].0 == k && t[i].1 == loc
    decreases |t|
  {
    if t[0].0 == k then t[0].1
    else
      assert exists i :: 0 <= i < |t[1..]| && t[1..][i].0 == k by {
        var i :| 0 <= i < |t| && t[i].0 == k;
        assert t[1..][i - 1] == t[i];
      }
      var loc := Stored(t[1..], k);
      ghost var i :| 0 <= i < |t[1..]| && t[1..][i].0 == k && t[1..][i].1 == loc;
      assert t[i + 1] == t[1..][i];
      loc
  }

  /** With distinct keys, the location stored under the resolved key is the
      first serving entry. */
  lemma ResolvedEntry(query: Query, t: Table, pregMatch: Matcher)
    requires DistinctKeys(t)
    requires GetLocation(query, t, pregMatch).Some?
    ensures exists i :: 0 <= i < |t| && t[i].0 == GetLocation(query, t, pregMatch).value
    ensures exists i :: 0 <= i < |t| && Stored(t, GetLocation(query, t, pregMatch).value) == t[i].1 &&
              Serves(pregMatch, t[i].1, query["Location"], query["Status"]) &&
              forall j :: 0 <= j < i ==> !Serves(pregMatch, t[j].1, query["Location"], query["Status"])
  {
    GetLocationFirstMatch(query, t, pregMatch);
    var k := GetLocation(query, t, pregMatch).value;
    var i :| 0 <= i < |t| && t[i].0 == k &&
             Serves(pregMatch, t[i].1, query["Location"], query["Status"]) &&
             forall j :: 0 <= j < i ==> !Serves(pregMatch, t[j].1, query["Location"], query["Status"]);
    var i' :| 0 <= i' < |t| && t[i'].0 == k && t[i'].1 == Stored(t, k);
    assert i' == i;
  }

  /** A location stored under key 0 is resolved but then reads as no
      location, even when a later entry would also serve the request. */
  lemma ZeroKeyReadsAsNoLocation(query: Query, t: Table, pregMatch: Matcher)
    requires !MissingRequired(query)
    requires |t| > 0 && t[0].0 == IntKey(0)
    requires Serves(pregMatch, t[0].1, query["Location"], query["Status"])
    ensures GetLocation(query, t, pregMatch) == Some(IntKey(0))
    ensures !Resolved(GetLocation(query, t, pregMatch))
  {
    ScanPicksEarliest(t, pregMatch, query["Location"], query["Status"], 0);
  }
}
