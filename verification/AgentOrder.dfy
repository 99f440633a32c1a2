/** Agents in the order of their IDs: the answer of ListAgents, for any map iteration order. */
module AgentOrder {
  import opened Model

  /** Go's `<` on strings: lexicographic by character. */
  predicate Less(a: string, b: string) {
    |b| > 0 && (|a| == 0 || a[0] < b[0] || (a[0] == b[0] && Less(a[1..], b[1..])))
  }

  /** The shared prefix has length `i`, and there `a` ends or has the smaller character. */
  predicate DiffersAt(a: string, b: string, i: nat) {
    i <= |a| && i < |b| && a[..i] == b[..i] && (i == |a| || a[i] < b[i])
  }

  lemma SharedPrefixBegins(a: string, b: string)
    ensures forall i: nat | 0 < i <= |a| && i <= |b| && a[..i] == b[..i] :: a[0] == b[0]
  {
    forall i: nat | 0 < i <= |a| && i <= |b|
      ensures a[..i][0] == a[0] && b[..i][0] == b[0]
    {
    }
  }

  lemma {:induction false} LessIsLexicographic(a: string, b: string)
    ensures Less(a, b) <==> exists i: nat :: DiffersAt(a, b, i)
  {
    if |a| > 0 && |b| > 0 && a[0] == b[0] {
      LessIsLexicographic(a[1..], b[1..]);
      if i: nat :| DiffersAt(a[1..], b[1..], i) {
        assert a[..i + 1] == [a[0]] + a[1..][..i] && b[..i + 1] == [b[0]] + b[1..][..i];
        assert DiffersAt(a, b, i + 1);
      }
      if i: nat :| DiffersAt(a, b, i) {
        assert i > 0 && a[1..][..i - 1] == a[..i][1..] && b[1..][..i - 1] == b[..i][1..];
        assert DiffersAt(a[1..], b[1..], i - 1);
      }
    } else if |b| > 0 && (|a| == 0 || a[0] < b[0]) {
      assert DiffersAt(a, b, 0);
    } else {
      SharedPrefixBegins(a, b);
    }
  }

  lemma {:induction false} LessIsTotal(a: string, b: string)
    ensures Less(a, b) || a == b || Less(b, a)
  {
    if |a| > 0 && |b| > 0 && a[0] == b[0] {
      LessIsTotal(a[1..], b[1..]);
      assert a == [a[0]] + a[1..] && b == [b[0]] + b[1..];
    }
  }

  lemma {:induction false} LessIsAsymmetric(a: string, b: string)
    requires Less(a, b)
    ensures a != b && !Less(b, a)
  {
    if |a| > 0 && a[0] == b[0] {
      LessIsAsymmetric(a[1..], b[1..]);
    }
  }

  lemma {:induction false} LessIsTransitive(a: string, b: string, c: string)
    requires Less(a, b) && Less(b, c)
    ensures Less(a, c)
  {
    if |a| > 0 && a[0] == b[0] == c[0] {
      LessIsTransitive(a[1..], b[1..], c[1..]);
    }
  }

  predicate NotAfter(a: string, b: string) {
    !Less(b, a)
  }

  lemma NotAfterIsTransitive(a: string, b: string, c: string)
    requires NotAfter(a, b) && NotAfter(b, c)
    ensures NotAfter(a, c)
  {
    LessIsTotal(a, b);
    LessIsTotal(b, c);
    if Less(c, a) {
      if Less(a, b) {
        LessIsTransitive(c, a, b);
      }
    }
  }

  ghost predicate Sorted(s: seq<Agent>) {
    forall i, j | 0 <= i < j < |s| :: NotAfter(s[i].id, s[j].id)
  }

  ghost predicate Increasing(s: seq<Agent>) {
    forall i, j | 0 <= i < j < |s| :: Less(s[i].id, s[j].id)
  }

  ghost predicate DistinctIds(s: seq<Agent>) {
    forall i, j | 0 <= i < j < |s| :: s[i].id != s[j].id
  }

  /** The store's invariant on its agents map. */
  ghost predicate Keyed(agents: map<string, Agent>) {
    forall id | id in agents :: agents[id].id == id
  }

  /** `s` holds the agents whose keys are not in `todo`, each once. */
  ghost predicate Collected(agents: map<string, Agent>, todo: set<string>, s: seq<Agent>) {
    && DistinctIds(s)
    && (forall a :: a in s <==> a.id in agents && a.id !in todo && agents[a.id] == a)
  }

  /** `s` is every registered agent exactly once, in strictly increasing order of ID. */
  ghost predicate Lists(agents: map<string, Agent>, s: seq<Agent>) {
    && Increasing(s)
    && (forall a :: a in s <==> a.id in agents && agents[a.id] == a)
  }

  lemma CollectOne(agents: map<string, Agent>, todo: set<string>, s: seq<Agent>, id: string)
    requires Keyed(agents) && Collected(agents, todo, s) && id in todo && id in agents
    ensures Collected(agents, todo - {id}, s + [agents[id]])
  {
    var t := s + [agents[id]];
    forall i, j | 0 <= i < j < |t|
      ensures t[i].id != t[j].id
    {
      assert t[i] in s;
    }
    forall a
      ensures a in t <==> a.id in agents && a.id !in todo - {id} && agents[a.id] == a
    {
      assert a in t <==> a in s || a == agents[id];
    }
  }

  lemma InsertKeepsSorted(s: seq<Agent>, i: nat, a: Agent, r: seq<Agent>)
    requires Sorted(s) && i <= |s| && r == s[..i] + [a] + s[i..]
    requires i > 0 ==> NotAfter(s[i - 1].id, a.id)
    requires forall k | i <= k < |s| :: Less(a.id, s[k].id)
    ensures Sorted(r)
  {
    forall j, k | 0 <= j < k < |r|
      ensures NotAfter(r[j].id, r[k].id)
    {
      if k == i {
        assert r[j] == s[j] && r[k] == a;
        if j < i - 1 {
          NotAfterIsTransitive(s[j].id, s[i - 1].id, a.id);
        }
      } else if j == i {
        assert r[j] == a && r[k] == s[k - 1];
        LessIsAsymmetric(a.id, s[k - 1].id);
      } else {
        assert r[j] == s[if j < i then j else j - 1];
        assert r[k] == s[if k < i then k else k - 1];
      }
    }
  }

  /** Where insertion sort puts `a`, searching down from position `from`. */
  function PlaceFor(s: seq<Agent>, a: Agent, from: nat): (i: nat)
    requires from <= |s|
    requires forall k | from <= k < |s| :: Less(a.id, s[k].id)
    ensures i <= |s| && (i > 0 ==> NotAfter(s[i - 1].id, a.id))
    ensures forall k | i <= k < |s| :: Less(a.id, s[k].id)
  {
    if from > 0 && Less(a.id, s[from - 1].id) then PlaceFor(s, a, from - 1) else from
  }

  function Insert(s: seq<Agent>, a: Agent): (r: seq<Agent>)
    requires Sorted(s)
    ensures Sorted(r) && multiset(r) == multiset(s) + multiset{a}
  {
    var i := PlaceFor(s, a, |s|);
    InsertKeepsSorted(s, i, a, s[..i] + [a] + s[i..]);
    InsertKeepsContents(s, i, a);
    s[..i] + [a] + s[i..]
  }

  lemma InsertKeepsContents(s: seq<Agent>, i: nat, a: Agent)
    requires i <= |s|
    ensures multiset(s[..i] + [a] + s[i..]) == multiset(s) + multiset{a}
  {
    assert s == s[..i] + s[i..];
  }

  /** Stands for `sort.Slice` by ID: some sorted arrangement of the same agents. */
  function SortById(s: seq<Agent>): (r: seq<Agent>)
    ensures Sorted(r) && multiset(r) == multiset(s)
  {
    if s == [] then []
    else
      var n := |s| - 1;
      assert s == s[..n] + [s[n]];
      Insert(SortById(s[..n]), s[n])
  }

  lemma RepeatsCount(s: seq<Agent>, i: int, j: int)
    requires 0 <= i < j < |s| && s[i] == s[j]
    ensures multiset(s)[s[i]] >= 2
  {
    assert s == s[..j] + [s[j]] + s[j + 1..];
    assert s[..j][i] == s[j];
  }

  lemma {:induction false} DistinctCount(s: seq<Agent>, a: Agent)
    requires DistinctIds(s)
    ensures multiset(s)[a] <= 1
  {
    if s != [] {
      var n := |s| - 1;
      DistinctCount(s[..n], a);
      assert s == s[..n] + [s[n]];
      assert s[n] !in s[..n];
    }
  }

  /** Sorting what was collected gives a listing. */
  lemma SortedCollectionLists(agents: map<string, Agent>, s: seq<Agent>, r: seq<Agent>)
    requires Keyed(agents) && Collected(agents, {}, s)
    requires Sorted(r) && multiset(r) == multiset(s)
    ensures Lists(agents, r)
  {
    forall a
      ensures a in r <==> a in s
    {
      assert a in multiset(r) <==> a in multiset(s);
    }
    forall i, j | 0 <= i < j < |r|
      ensures Less(r[i].id, r[j].id)
    {
      if r[i].id == r[j].id {
        assert r[i] in r && r[j] in r;
        RepeatsCount(r, i, j);
        DistinctCount(s, r[i]);
      }
      LessIsTotal(r[i].id, r[j].id);
    }
  }

  /** Two strictly increasing lists with the same elements are the same list. */
  lemma {:induction false} IncreasingIsUnique(s: seq<Agent>, t: seq<Agent>)
    requires Increasing(s) && Increasing(t)
    requires forall a :: a in s <==> a in t
    ensures s == t
  {
    assert t != [] ==> t[0] in t;
    if s != [] {
      assert s[0] in t;
      var j :| 0 <= j < |t| && t[j] == s[0];
      assert t[0] in s;
      var i :| 0 <= i < |s| && s[i] == t[0];
      if i > 0 && j > 0 {
        LessIsAsymmetric(s[0].id, t[0].id);
      }
      assert s[0] == t[0];
      forall a
        ensures a in s[1..] <==> a in t[1..]
      {
        TailMembership(s, a);
        TailMembership(t, a);
      }
      IncreasingIsUnique(s[1..], t[1..]);
      assert s == [s[0]] + s[1..] && t == [t[0]] + t[1..];
    }
  }

  lemma TailMembership(s: seq<Agent>, a: Agent)
    requires s != [] && Increasing(s)
    ensures a in s[1..] <==> a in s && a != s[0]
  {
    if a in s[1..] {
      var i :| 0 <= i < |s[1..]| && s[1..][i] == a;
      LessIsAsymmetric(s[0].id, s[i + 1].id);
    }
    assert s == [s[0]] + s[1..];
  }

  /** The listing does not depend on how it was produced. */
  lemma ListingIsUnique(agents: map<string, Agent>, s: seq<Agent>, t: seq<Agent>)
    requires Lists(agents, s) && Lists(agents, t)
    ensures s == t
  {
    IncreasingIsUnique(s, t);
  }

  /** The agents can be collected. */
  lemma {:induction false} CollectionExists(agents: map<string, Agent>, todo: set<string>) returns (s: seq<Agent>)
    requires Keyed(agents) && todo <= agents.Keys
    ensures Collected(agents, todo, s)
    decreases |agents.Keys - todo|
  {
    if agents.Keys - todo == {} {
      assert todo == agents.Keys;
      s := [];
    } else {
      var id :| id in agents.Keys - todo;
      assert agents.Keys - (todo + {id}) == agents.Keys - todo - {id};
      s := CollectionExists(agents, todo + {id});
      CollectOne(agents, todo + {id}, s, id);
      s := s + [agents[id]];
      assert todo + {id} - {id} == todo;
    }
  }

  lemma ListingExists(agents: map<string, Agent>) returns (s: seq<Agent>)
    requires Keyed(agents)
    ensures Lists(agents, s)
  {
    var collected := CollectionExists(agents, {});
    s := SortById(collected);
    SortedCollectionLists(agents, collected, s);
  }

  /** The abstract answer of ListAgents. */
  ghost function Listing(agents: map<string, Agent>): (s: seq<Agent>)
    requires Keyed(agents)
    ensures Lists(agents, s)
  {
    assert exists s :: Lists(agents, s) by {
      var s := ListingExists(agents);
    }
    var s :| Lists(agents, s);
    s
  }
}
