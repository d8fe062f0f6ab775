/** A names database saved to its file and loaded again: which names survive, and when the reverse map is right. */
module DevicesNamesReload {
  import opened Common
  import opened DevicesNames

  function Reloaded(file: FileContent): Names {
    Step(INITIAL, InitDb(true, file))
  }

  lemma {:induction false} ListedName(entries: seq<(Uid, Name)>, m: map<Uid, Name>, u: Uid)
    requires Lists(entries, m)
    ensures LastName(entries, u) == if u in m then Some(m[u]) else None
  {
    if u in m {
      var k :| 0 <= k < |entries| && entries[k].0 == u;
      LastNameIsSome(entries, k);
    }
    LastNameIsListed(entries, u);
  }

  lemma {:induction false} LastNameIsListed(entries: seq<(Uid, Name)>, u: Uid)
    ensures LastName(entries, u).Some? ==> (u, LastName(entries, u).value) in entries
    decreases |entries|
  {
    if entries != [] { LastNameIsListed(entries[..|entries| - 1], u); }
  }

  /** What is saved is loaded: a device keeps its name, unless it is an empty manual name over an automatic one. */
  lemma {:induction false} NameSurvivesIff(s: Names, file: FileContent, u: Uid)
    requires IsSaved(file, s) && u != 0
    ensures Current(Reloaded(file), u) == Current(s, u) <==>
            !(u in s.manual && s.manual[u] == "" && u in s.auto && s.auto[u] != "")
  {
    ListedName(file.auto, Named(s.auto), u);
    ListedName(file.manual, Named(s.manual), u);
    LoadedCurrent(file.auto, file.manual, u);
  }

  /** A name that no saved manual entry uses. */
  ghost predicate NotManual(s: Names, n: Name) {
    forall u | u in Named(s.manual) :: Named(s.manual)[u] != n
  }

  /** A saved and loaded database is right, the empty name included, exactly when of every automatic name that is
      nobody's manual name the last bearer in the file has no manual name. */
  lemma {:induction false} ReloadIsFullIff(s: Names, file: FileContent)
    requires IsSaved(file, s)
    ensures Full(Reloaded(file)) <==>
            (forall k | 0 <= k < |file.auto| ::
               LastWith(file.auto, file.auto[k].1) == Some(file.auto[k].0) && NotManual(s, file.auto[k].1) ==>
                 file.auto[k].0 !in Named(s.manual))
  {
    LoadIsFullIffNothingStale(file.auto, file.manual);
    forall k | 0 <= k < |file.auto|
      ensures Stale(file.auto, file.manual, k) <==>
              LastWith(file.auto, file.auto[k].1) == Some(file.auto[k].0) && NotManual(s, file.auto[k].1)
              && file.auto[k].0 in Named(s.manual)
    {
      AutoIsStaleIff(s, file, k);
    }
    forall k | |file.auto| <= k < |file.auto| + |file.manual| ensures !Stale(file.auto, file.manual, k) {
      ManualIsNotStale(s, file, k);
    }
  }

  /** The last bearer of a name in two lists is that in the second, if the second has one. */
  lemma {:induction false} LastWithJoined(a: seq<(Uid, Name)>, b: seq<(Uid, Name)>, n: Name)
    ensures LastWith(a + b, n) == if LastWith(b, n).Some? then LastWith(b, n) else LastWith(a, n)
    decreases |b|
  {
    if b == [] {
      assert a + b == a;
    } else {
      var k := |b| - 1;
      assert (a + b)[..|a + b| - 1] == a + b[..k];
      LastWithJoined(a, b[..k], n);
    }
  }

  lemma {:induction false} LastWithIsSomeIff(entries: seq<(Uid, Name)>, n: Name)
    ensures LastWith(entries, n).Some? <==> exists k :: 0 <= k < |entries| && entries[k].1 == n
    decreases |entries|
  {
    if entries != [] {
      var k := |entries| - 1;
      LastWithIsSomeIff(entries[..k], n);
      if i :| 0 <= i < |entries| && entries[i].1 == n {
        if i < k { assert entries[..k][i].1 == n; }
      }
    }
  }

  /** The manual entries name somebody so exactly when the map does. */
  lemma {:induction false} ManualBearer(s: Names, file: FileContent, n: Name)
    requires IsSaved(file, s)
    ensures LastWith(file.manual, n) == None <==> NotManual(s, n)
  {
    LastWithIsSomeIff(file.manual, n);
    if LastWith(file.manual, n).Some? {
      var k :| 0 <= k < |file.manual| && file.manual[k].1 == n;
      assert file.manual[k].0 in Named(s.manual);
    }
    if !NotManual(s, n) {
      var k := BearerIsListed(s, file, n);
    }
  }

  lemma {:induction false} BearerIsListed(s: Names, file: FileContent, n: Name) returns (k: nat)
    requires IsSaved(file, s) && !NotManual(s, n)
    ensures k < |file.manual| && file.manual[k].1 == n
  {
    var u :| u in Named(s.manual) && Named(s.manual)[u] == n;
    k :| 0 <= k < |file.manual| && file.manual[k].0 == u;
  }

  lemma {:induction false} AutoIsStaleIff(s: Names, file: FileContent, k: nat)
    requires IsSaved(file, s) && k < |file.auto|
    ensures Stale(file.auto, file.manual, k) <==>
            LastWith(file.auto, file.auto[k].1) == Some(file.auto[k].0) && NotManual(s, file.auto[k].1)
            && file.auto[k].0 in Named(s.manual)
  {
    var u, n := file.auto[k].0, file.auto[k].1;
    assert (file.auto + file.manual)[k] == file.auto[k];
    LastWithJoined(file.auto, file.manual, n);
    ManualBearer(s, file, n);
    ListedName(file.auto, Named(s.auto), u);
    ListedName(file.manual, Named(s.manual), u);
    if LastWith(file.manual, n) == Some(u) {
      var j := LastWithAt(file.manual, n);
      assert Named(s.manual)[u] == n;
    }
  }

  lemma {:induction false} ManualIsNotStale(s: Names, file: FileContent, k: nat)
    requires IsSaved(file, s) && |file.auto| <= k < |file.auto| + |file.manual|
    ensures !Stale(file.auto, file.manual, k)
  {
    var u := file.manual[k - |file.auto|].0;
    assert (file.auto + file.manual)[k] == file.manual[k - |file.auto|];
    ListedName(file.manual, Named(s.manual), u);
  }

  /** The program writes such files: a device with two different names that nobody else bears is found, after loading,
      under the automatic one too, though it does not go by it, and was not found so before. */
  lemma {:induction false} ReloadBringsBackAutoName(s: Names, file: FileContent, u: Uid)
    requires IsSaved(file, s) && s.hasPath && u in Named(s.auto) && u in Named(s.manual) && NotManual(s, s.auto[u])
    requires forall v | v in Named(s.auto) && Named(s.auto)[v] == s.auto[u] :: v == u
    ensures FindDevice(Reloaded(file), s.auto[u]) == u && DeviceName(Reloaded(file), u) == s.manual[u] != s.auto[u]
    ensures !Full(Reloaded(file))
    ensures FullButEmpty(s) ==> FindDevice(s, s.auto[u]) != u
  {
    var n := s.auto[u];
    ListedName(file.auto, Named(s.auto), u);
    ListedName(file.manual, Named(s.manual), u);
    LoadedCurrent(file.auto, file.manual, u);
    LastWithJoined(file.auto, file.manual, n);
    ManualBearer(s, file, n);
    LastWithIsSomeIff(file.auto, n);
    var k :| 0 <= k < |file.auto| && file.auto[k].0 == u;
    assert file.auto[k].1 == n;
    var j := LastWithAt(file.auto, n);
    assert file.auto[j].0 in Named(s.auto) && Named(s.auto)[file.auto[j].0] == n;
    LoadedReverseIsLast(file.auto + file.manual, n);
  }
}
