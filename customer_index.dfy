/**
 * `indexize` and the search lookup (dashboard/app.js): a map from the
 * normalised customer id (trimmed, upper-cased) to the last record with
 * that id; blank ids are not indexed. Search applies the same
 * normalisation to the query.
 */
module CustomerIndex {
  import opened Wrappers
  import opened Text
  import opened Customers

  type Index = map<string, Customer>

  /** `raw.trim().toUpperCase()`: the normalisation shared by index build and lookup. */
  function Normalize(raw: string): string {
    Upper(Trim(raw))
  }

  /** `(c.id ?? c.CustomerID ?? "").toString().trim().toUpperCase()`. */
  function Key(c: Customer): string {
    Normalize(c.id.GetOr(""))
  }

  /**
   * The map that inserting every element of `list` in order under
   * `key(c)`, with overwriting and skipping blank keys, produces.
   */
  function IndexBy<T>(list: seq<T>, key: T -> string): map<string, T>
    decreases |list|
  {
    if list == [] then map[]
    else
      var n := |list| - 1;
      var m := IndexBy(list[..n], key);
      if key(list[n]) != "" then m[key(list[n]) := list[n]] else m
  }

  /** The customer index of a list: what `indexize` returns. */
  function IndexOf(list: seq<Customer>): Index {
    IndexBy(list, Key)
  }

  /** `indexize(list)`: one pass over the list, `m.set(key, c)` for every non-blank key. */
  method Indexize(list: seq<Customer>) returns (m: Index)
    ensures m == IndexOf(list)
  {
    m := map[];
    for i := 0 to |list|
      invariant m == IndexBy(list[..i], Key)
    {
      assert list[..i + 1][..i] == list[..i];
      var key := Key(list[i]);
      if key != "" {
        m := m[key := list[i]];
      }
    }
    assert list[..|list|] == list;
  }

  /** Position `i` holds the last element of `list` whose key is `k`. */
  predicate LastWithKey<T>(list: seq<T>, key: T -> string, k: string, i: int) {
    0 <= i < |list| && key(list[i]) == k && forall j :: i < j < |list| ==> key(list[j]) != k
  }

  /** The keys are exactly the non-blank keys of the elements of the list. */
  lemma {:induction false} IndexKeys<T>(list: seq<T>, key: T -> string)
    ensures forall k :: k in IndexBy(list, key) <==> k != "" && exists i :: 0 <= i < |list| && key(list[i]) == k
    decreases |list|
  {
    if list != [] {
      var n := |list| - 1;
      IndexKeys(list[..n], key);
      forall k ensures k in IndexBy(list, key) <==> k != "" && exists i :: 0 <= i < |list| && key(list[i]) == k {
        if k in IndexBy(list, key) && k != key(list[n]) {
          assert k in IndexBy(list[..n], key);
          var i :| 0 <= i < n && key(list[..n][i]) == k;
          assert key(list[i]) == k;
        }
        if k != "" && (exists i :: 0 <= i < |list| && key(list[i]) == k) && k != key(list[n]) {
          var i :| 0 <= i < |list| && key(list[i]) == k;
          assert key(list[..n][i]) == k;
        }
      }
    }
  }

  lemma {:induction false} NoBlankKey<T>(list: seq<T>, key: T -> string)
    ensures "" !in IndexBy(list, key)
    decreases |list|
  {
    if list != [] {
      NoBlankKey(list[..|list| - 1], key);
    }
  }

  /** Every key maps to the last element in list order that carries it. */
  lemma {:induction false} IndexLastWins<T>(list: seq<T>, key: T -> string, k: string)
    requires k in IndexBy(list, key)
    ensures exists i :: LastWithKey(list, key, k, i) && IndexBy(list, key)[k] == list[i]
    decreases |list|
  {
    var n := |list| - 1;
    if key(list[n]) == k {
      NoBlankKey(list[..n], key);
      assert LastWithKey(list, key, k, n);
    } else {
      IndexLastWins(list[..n], key, k);
      var i :| LastWithKey(list[..n], key, k, i) && IndexBy(list[..n], key)[k] == list[..n][i];
      assert LastWithKey(list, key, k, i);
    }
  }

  /** The index is never larger than the list. */
  lemma {:induction false} IndexSize<T>(list: seq<T>, key: T -> string)
    ensures |IndexBy(list, key)| <= |list|
    decreases |list|
  {
    if list != [] {
      IndexSize(list[..|list| - 1], key);
    }
  }

  /**
   * The customer index holds, under each non-blank normalised id of the
   * list, the last record with that id, and nothing else; it is no larger
   * than the list.
   */
  lemma IndexOfSpec(list: seq<Customer>)
    ensures forall k :: k in IndexOf(list) <==> k != "" && exists i :: 0 <= i < |list| && Key(list[i]) == k
    ensures forall k :: k in IndexOf(list) ==> exists i :: LastWithKey(list, Key, k, i) && IndexOf(list)[k] == list[i]
    ensures forall k :: k in IndexOf(list) ==> IndexOf(list)[k] in list
    ensures |IndexOf(list)| <= |list|
  {
    IndexKeys(list, Key);
    forall k | k in IndexOf(list)
      ensures exists i :: LastWithKey(list, Key, k, i) && IndexOf(list)[k] == list[i]
    {
      IndexLastWins(list, Key, k);
    }
    IndexSize(list, Key);
  }

  /** Every record with a non-blank key is reachable, and its key finds the last record with that key. */
  lemma IndexFindsEveryRecord(list: seq<Customer>, i: int)
    requires 0 <= i < |list| && Key(list[i]) != ""
    ensures Key(list[i]) in IndexOf(list)
    ensures exists j :: i <= j && LastWithKey(list, Key, Key(list[i]), j) && IndexOf(list)[Key(list[i])] == list[j]
  {
    IndexKeys(list, Key);
    var k := Key(list[i]);
    IndexLastWins(list, Key, k);
    var j :| LastWithKey(list, Key, k, j) && IndexOf(list)[k] == list[j];
    assert i <= j;
  }

  /** The result of the search button. */
  datatype SearchOutcome =
    | EnterId                                  // blank query
    | NoData                                   // the active index is empty
    | NotFound
    | Hit(record: Customer, shownId: string)   // `shownId` is `hit.id ?? id`

  /**
   * The search handler's logic on a given active index: a blank query is
   * refused before any index is consulted, an empty index reports that no
   * data is loaded, and otherwise the normalised query is looked up.
   */
  function SearchIn(query: string, active: Index): (o: SearchOutcome)
    ensures o == EnterId <==> Trim(query) == ""
    ensures o == NoData <==> Trim(query) != "" && |active| == 0
    ensures o == NotFound <==> Trim(query) != "" && |active| != 0 && Normalize(query) !in active
    ensures o.Hit? <==> Trim(query) != "" && Normalize(query) in active
    ensures o.Hit? ==> (o.record == active[Normalize(query)] && o.shownId == o.record.id.GetOr(Normalize(query)))
  {
    var raw := Trim(query);
    if raw == "" then EnterId
    else
      var id := Upper(raw);
      if |active| == 0 then NoData
      else if id !in active then NotFound
      else
        var hit := active[id];
        Hit(hit, hit.id.GetOr(id))
  }

  /**
   * Normalisation symmetry: looking up any indexed record's own id, with
   * surrounding whitespace or in lower case, finds the index entry for
   * that record's key.
   */
  lemma SearchFindsIndexed(list: seq<Customer>, i: int, pad: string, pad2: string)
    requires 0 <= i < |list| && Key(list[i]) != ""
    requires AllSpace(pad) && AllSpace(pad2)
    ensures var k := Key(list[i]); var raw := list[i].id.GetOr("");
      && k in IndexOf(list)
      && SearchIn(pad + raw + pad2, IndexOf(list)) == Hit(IndexOf(list)[k], IndexOf(list)[k].id.GetOr(k))
      && SearchIn(Lower(raw), IndexOf(list)) == SearchIn(raw, IndexOf(list))
  {
    var raw := list[i].id.GetOr("");
    IndexFindsEveryRecord(list, i);
    TrimPadded(pad, raw, pad2);
    UpperLower(Trim(raw));
    LowerTrimCommute(raw);
    UpperEmpty(Trim(Lower(raw)));
    UpperEmpty(Trim(raw));
  }

  lemma TrimPadded(pad: string, s: string, pad2: string)
    requires AllSpace(pad) && AllSpace(pad2)
    ensures Trim(pad + s + pad2) == Trim(s)
  {
    TrimAppendSpace(pad + s, pad2);
    TrimPrependSpace(pad, s);
  }

  lemma {:induction false} TrimPrependSpace(w: string, s: string)
    requires AllSpace(w)
    ensures Trim(w + s) == Trim(s)
    decreases |w|
  {
    if w != [] {
      assert (w + s)[1..] == w[1..] + s;
      TrimPrependSpace(w[1..], s);
    } else {
      assert w + s == s;
    }
  }
}
