/** The model catalog (the `MODELS` dict of app.py) and the ordered list of
    candidate models the dispatcher works through: the preferred model first,
    then every other catalog model in catalog order. */
module Catalog {
  import opened Wrappers

  /** A provider model identifier such as "openrouter/auto". */
  type ModelId = string

  /** One catalog entry: the display name shown in the model selector and the
      provider model identifier it stands for. */
  datatype Entry = Entry(key: string, id: ModelId)

  /** A Python dict keeps insertion order, so the catalog is a sequence of
      entries; as a dict it never holds the same key twice. The operations
      accept any sequence: on one with a repeated key, which no dict is,
      Lookup takes the first such entry. The results that depend on the
      keys being distinct (LookupFindsEntry, DistinctCandidates) require
      DistinctKeys, which the catalog of app.py:21-27 meets
      (ModelsDistinct). */
  type Catalog = seq<Entry>

  ghost predicate DistinctKeys(c: Catalog)
  {
    forall i, j :: 0 <= i < j < |c| ==> c[i].key != c[j].key
  }

  /** `MODELS.values()`, in catalog order. */
  function Values(c: Catalog): seq<ModelId>
  {
    seq(|c|, i requires 0 <= i < |c| => c[i].id)
  }

  /** `MODELS[key]`: the model of the first entry with that key, or nothing
      (Python raises `KeyError`). */
  function Lookup(c: Catalog, key: string): (r: Option<ModelId>)
    ensures r.None? <==> forall i :: 0 <= i < |c| ==> c[i].key != key
    ensures r.Some? ==> exists i :: 0 <= i < |c| && c[i] == Entry(key, r.value)
  {
    if |c| == 0 then None
    else if c[0].key == key then Some(c[0].id)
    else
      var r := Lookup(c[1..], key);
      assert forall i :: 1 <= i < |c| ==> c[i] == c[1..][i - 1];
      r
  }

  /** With distinct keys the lookup of an entry's key finds that entry. */
  lemma {:induction false} LookupFindsEntry(c: Catalog, i: int)
    requires DistinctKeys(c)
    requires 0 <= i < |c|
    ensures Lookup(c, c[i].key) == Some(c[i].id)
    decreases |c|
  {
    if i > 0 {
      assert c[0].key != c[i].key;
      assert c[1..][i - 1] == c[i];
      LookupFindsEntry(c[1..], i - 1);
    }
  }

  /** `[v for v in vs if v != id]`. */
  function Without(vs: seq<ModelId>, id: ModelId): (r: seq<ModelId>)
    ensures id !in r
    ensures forall x :: x in r <==> x in vs && x != id
  {
    if |vs| == 0 then []
    else
      var rest := Without(vs[1..], id);
      assert vs == [vs[0]] + vs[1..];
      if vs[0] == id then rest else [vs[0]] + rest
  }

  /** Filtering removes every copy of `id` and nothing else: every other
      value keeps its number of occurrences. */
  lemma {:induction false} WithoutCounts(vs: seq<ModelId>, id: ModelId)
    ensures forall x :: x != id ==> multiset(Without(vs, id))[x] == multiset(vs)[x]
    ensures |Without(vs, id)| == |vs| - multiset(vs)[id]
    decreases |vs|
  {
    if |vs| > 0 {
      WithoutCounts(vs[1..], id);
      assert vs == [vs[0]] + vs[1..];
      assert multiset(vs) == multiset{vs[0]} + multiset(vs[1..]);
      if vs[0] != id {
        assert multiset([vs[0]] + Without(vs[1..], id)) == multiset{vs[0]} + multiset(Without(vs[1..], id));
      }
    }
  }

  /** `a` is obtained from `b` by deleting elements: it lists some of `b`'s
      elements in the order `b` has them. */
  predicate IsSubsequence(a: seq<ModelId>, b: seq<ModelId>)
    decreases |b|
  {
    if a == [] then true
    else if b == [] then false
    else if a[0] == b[0] then IsSubsequence(a[1..], b[1..])
    else IsSubsequence(a, b[1..])
  }

  /** Filtering keeps the surviving models in their catalog order. */
  lemma {:induction false} WithoutKeepsOrder(vs: seq<ModelId>, id: ModelId)
    ensures IsSubsequence(Without(vs, id), vs)
    decreases |vs|
  {
    if |vs| > 0 {
      WithoutKeepsOrder(vs[1..], id);
      if vs[0] != id {
        assert ([vs[0]] + Without(vs[1..], id))[1..] == Without(vs[1..], id);
      } else {
        SubsequenceOfTail(Without(vs[1..], id), vs);
      }
    }
  }

  lemma {:induction false} SubsequenceOfTail(a: seq<ModelId>, b: seq<ModelId>)
    requires |b| > 0 && IsSubsequence(a, b[1..])
    ensures IsSubsequence(a, b)
    decreases |a| + |b|
  {
    if a != [] && a[0] == b[0] {
      // a[1..] is a subsequence of b[1..] because a is
      SubsequenceDropHead(a, b[1..]);
    }
  }

  lemma {:induction false} SubsequenceDropHead(a: seq<ModelId>, b: seq<ModelId>)
    requires a != [] && IsSubsequence(a, b)
    ensures IsSubsequence(a[1..], b)
    decreases |a| + |b|
  {
    if a[0] == b[0] {
      if b[1..] != [] {
        SubsequenceOfTail(a[1..], b);
      }
    } else {
      SubsequenceDropHead(a, b[1..]);
      SubsequenceOfTail(a[1..], b);
    }
  }

  /** Filtering out a model the list does not hold changes nothing. */
  lemma {:induction false} WithoutAbsent(vs: seq<ModelId>, id: ModelId)
    requires id !in vs
    ensures Without(vs, id) == vs
    decreases |vs|
  {
    if |vs| > 0 {
      WithoutAbsent(vs[1..], id);
      assert vs == [vs[0]] + vs[1..];
    }
  }

  /** Filtering distributes over concatenation. */
  lemma {:induction false} WithoutAppend(a: seq<ModelId>, b: seq<ModelId>, id: ModelId)
    ensures Without(a + b, id) == Without(a, id) + Without(b, id)
    decreases |a|
  {
    if |a| > 0 {
      assert (a + b)[1..] == a[1..] + b;
      WithoutAppend(a[1..], b, id);
    } else {
      assert a + b == b;
    }
  }

  /** The candidate list of app.py:448-450, or the missing key: the
      preferred model, then every catalog model, and no other. */
  function Candidates(c: Catalog, key: string): (r: Result<seq<ModelId>, string>)
    ensures r.Err? <==> forall i :: 0 <= i < |c| ==> c[i].key != key
    ensures r.Err? ==> r.error == key
    ensures r.Ok? ==> |r.value| >= 1 && Lookup(c, key) == Some(r.value[0])
    ensures r.Ok? ==> r.value[0] !in r.value[1..]
    ensures r.Ok? ==> forall x :: x in Values(c) ==> x in r.value
    ensures r.Ok? ==> forall x :: x in r.value ==> x == r.value[0] || x in Values(c)
  {
    match Lookup(c, key)
    case None => Err(key)
    case Some(id) =>
      var fallbacks := Without(Values(c), id);
      assert ([id] + fallbacks)[1..] == fallbacks;
      Ok([id] + fallbacks)
  }

  /** The preferred model occurs once; every other catalog model occurs as
      often as in the catalog, so the list has one entry more than the
      catalog has values other than the preferred one. */
  lemma CandidatesCounts(c: Catalog, key: string)
    requires Candidates(c, key).Ok?
    ensures var r := Candidates(c, key).value;
      && multiset(r)[r[0]] == 1
      && (forall x :: x != r[0] ==> multiset(r)[x] == multiset(Values(c))[x])
      && |r| == 1 + |Values(c)| - multiset(Values(c))[r[0]]
  {
    var r := Candidates(c, key).value;
    var id := r[0];
    var fallbacks := Without(Values(c), id);
    assert r == [id] + fallbacks;
    WithoutCounts(Values(c), id);
    assert multiset(r) == multiset{id} + multiset(fallbacks);
  }

  /** The fallbacks that follow the preferred model are the other catalog
      models in catalog order. */
  lemma CandidatesKeepCatalogOrder(c: Catalog, key: string)
    requires Candidates(c, key).Ok?
    ensures IsSubsequence(Candidates(c, key).value[1..], Values(c))
  {
    var id := Lookup(c, key).value;
    assert Candidates(c, key).value[1..] == Without(Values(c), id);
    WithoutKeepsOrder(Values(c), id);
  }

  /** The catalog of app.py:21-27. */
  const Models: Catalog := [
    Entry("\U{26A1} Auto", "openrouter/auto"),
    Entry("\U{1F31F} Gemini 2.0 Flash", "google/gemini-2.0-flash-exp:free"),
    Entry("\U{1F9E0} DeepSeek Chat V3", "deepseek/deepseek-chat-v3-0324:free"),
    Entry("\U{1F52E} Mistral Small 3.1", "mistralai/mistral-small-3.1-24b-instruct:free"),
    Entry("\U{1F999} LLaMA 4 Maverick", "meta-llama/llama-4-maverick:free")
  ]

  /** The session default selection (app.py:133) is the first catalog entry,
      so its candidate list is the whole catalog in catalog order. */
  lemma DefaultCandidates()
    ensures Candidates(Models, Models[0].key) == Ok(Values(Models))
  {
    var vs := Values(Models);
    assert vs[0] !in vs[1..];
    WithoutAbsent(vs[1..], vs[0]);
    assert vs == [vs[0]] + vs[1..];
  }

  /** No two entries of the catalog share a display name or a model. */
  lemma ModelsDistinct()
    ensures DistinctKeys(Models)
    ensures forall j, k :: 0 <= j < k < |Models| ==> Models[j].id != Models[k].id
  {
    assert forall j :: 0 <= j < |Models| ==> Models[j].key[0] == "\U{26A1}\U{1F31F}\U{1F9E0}\U{1F52E}\U{1F999}"[j];
  }

  /** In a catalog without repeated names or models, every selection yields
      every model exactly once. */
  lemma DistinctCandidates(c: Catalog, i: int)
    requires DistinctKeys(c)
    requires forall j, k :: 0 <= j < k < |c| ==> c[j].id != c[k].id
    requires 0 <= i < |c|
    ensures Candidates(c, c[i].key).Ok?
    ensures |Candidates(c, c[i].key).value| == |c|
  {
    LookupFindsEntry(c, i);
    var vs := Values(c);
    assert forall j, k :: 0 <= j < k < |vs| ==> vs[j] != vs[k];
    DistinctCount(vs, i);
    CandidatesCounts(c, c[i].key);
  }

  /** So every selection of the catalog yields all five models, each once. */
  lemma ModelsCandidates(i: int)
    requires 0 <= i < |Models|
    ensures Candidates(Models, Models[i].key).Ok?
    ensures |Candidates(Models, Models[i].key).value| == 5
  {
    ModelsDistinct();
    DistinctCandidates(Models, i);
  }

  /** In a sequence without repetitions each element occurs once. */
  lemma {:induction false} DistinctCount(vs: seq<ModelId>, i: int)
    requires forall j, k :: 0 <= j < k < |vs| ==> vs[j] != vs[k]
    requires 0 <= i < |vs|
    ensures multiset(vs)[vs[i]] == 1
    decreases |vs|
  {
    assert vs == [vs[0]] + vs[1..];
    if i == 0 {
      assert vs[0] !in vs[1..];
    } else {
      assert vs[1..][i - 1] == vs[i];
      DistinctCount(vs[1..], i - 1);
    }
  }

  /** Selecting the middle entry of a three-entry catalog moves it to the
      front and keeps the other two in catalog order. */
  lemma MiddleSelectionOrder()
    ensures Candidates([Entry("A", "a"), Entry("B", "b"), Entry("C", "c")], "B") == Ok(["b", "a", "c"])
  {
    var catalog := [Entry("A", "a"), Entry("B", "b"), Entry("C", "c")];
    assert catalog[1..] == [Entry("B", "b"), Entry("C", "c")];
    assert Lookup(catalog, "B") == Some("b");
    assert Values(catalog) == ["a", "b", "c"];
    WithoutAbsent(["c"], "b");
    assert ["a", "b", "c"][1..] == ["b", "c"];
    assert ["b", "c"][1..] == ["c"];
    assert Without(["b", "c"], "b") == ["c"];
    assert Without(["a", "b", "c"], "b") == ["a", "c"];
    assert Candidates(catalog, "B") == Ok(["b"] + Without(Values(catalog), "b"));
    assert ["b"] + ["a", "c"] == ["b", "a", "c"];
  }
}
