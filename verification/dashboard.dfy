/** The state transitions of the dashboard page: toggling a chain in the
    selection, submitting the search box, and keeping the selected pair in
    step with the current result list. */
module Dashboard {
  import opened Optional
  import opened Text
  import opened Seqs
  import opened Pairs
  import opened PairTable

  const DefaultChains: seq<string> := ["ethereum", "bsc", "solana", "base"]
  const DefaultTerm: string := "top"

  /** `prev.filter((item) => item !== x)` */
  function RemoveAll(s: seq<string>, x: string): (r: seq<string>)
    ensures forall y :: y in r <==> y in s && y != x
    ensures Subsequence(r, s)
    decreases |s|
  {
    if |s| == 0 then []
    else
      var rest := RemoveAll(s[1..], x);
      assert s == [s[0]] + s[1..];
      if s[0] == x then
        SubsequenceCons(rest, s[0], s[1..]);
        rest
      else
        assert ([s[0]] + rest)[1..] == rest;
        [s[0]] + rest
  }

  lemma {:induction false} RemoveAbsent(s: seq<string>, x: string)
    requires x !in s
    ensures RemoveAll(s, x) == s
    decreases |s|
  {
    if |s| > 0 {
      RemoveAbsent(s[1..], x);
      assert [s[0]] + s[1..] == s;
    }
  }

  lemma RemoveCons(h: string, s: seq<string>, x: string)
    ensures RemoveAll([h] + s, x) == (if h == x then [] else [h]) + RemoveAll(s, x)
  {
  }

  lemma {:induction false} RemoveAppend(s: seq<string>, t: seq<string>, x: string)
    ensures RemoveAll(s + t, x) == RemoveAll(s, x) + RemoveAll(t, x)
    decreases |s|
  {
    if |s| == 0 {
      assert s + t == t;
    } else {
      RemoveAppend(s[1..], t, x);
      assert s + t == [s[0]] + (s[1..] + t);
      assert s == [s[0]] + s[1..];
      RemoveCons(s[0], s[1..] + t, x);
      RemoveCons(s[0], s[1..], x);
      SeqAssoc(if s[0] == x then [] else [s[0]], RemoveAll(s[1..], x), RemoveAll(t, x));
    }
  }

  /** `toggleChain(chainId)`: add an absent chain at the end; remove every
      copy of a present one, unless that would leave nothing selected. */
  function ToggleChain(prev: seq<string>, id: string): (next: seq<string>)
    ensures |prev| > 0 ==> |next| > 0
    ensures id !in prev ==> next == prev + [id]
    ensures id in prev ==> Subsequence(next, prev)
    ensures id in prev ==> forall y :: y != id ==> (y in next <==> y in prev)
    ensures id in prev ==> (id in next <==> forall y :: y in prev ==> y == id)
  {
    if id in prev then
      var next := RemoveAll(prev, id);
      if |next| > 0 then
        assert next[0] in prev && next[0] != id;
        next
      else
        SubsequenceReflexive(prev);
        prev
    else prev + [id]
  }

  /** `RemoveAll` drops every copy of `x` and keeps every copy of every
      other id. */
  lemma {:induction false} RemoveAllCounts(s: seq<string>, x: string)
    ensures multiset(RemoveAll(s, x)) == multiset(s)[x := 0]
    decreases |s|
  {
    if |s| > 0 {
      RemoveAllCounts(s[1..], x);
      assert s == [s[0]] + s[1..];
      assert multiset(s) == multiset{s[0]} + multiset(s[1..]);
      RemoveCons(s[0], s[1..], x);
    }
  }

  /** Nothing but `id` changes: its copies are all removed, unless that
      would empty the selection, or one copy is added at the end. */
  lemma ToggleChainCounts(prev: seq<string>, id: string)
    ensures id !in prev ==> multiset(ToggleChain(prev, id)) == multiset(prev) + multiset{id}
    ensures id in prev && (exists y :: y in prev && y != id) ==>
      multiset(ToggleChain(prev, id)) == multiset(prev)[id := 0]
    ensures id in prev && (forall y :: y in prev ==> y == id) ==> ToggleChain(prev, id) == prev
  {
    RemoveAllCounts(prev, id);
  }

  /** Toggling an absent chain twice restores a non-empty selection. */
  lemma ToggleTwice(prev: seq<string>, id: string)
    requires |prev| > 0 && id !in prev
    ensures ToggleChain(ToggleChain(prev, id), id) == prev
  {
    RemoveAppend(prev, [id], id);
    RemoveAbsent(prev, id);
    assert RemoveAll([id], id) == [];
  }

  /** The selection after a run of toggles. */
  function ToggleAll(start: seq<string>, ids: seq<string>): seq<string>
    decreases |ids|
  {
    if |ids| == 0 then start else ToggleAll(ToggleChain(start, ids[0]), ids[1..])
  }

  /** Starting from the default chains, no run of toggles empties the
      selection. */
  lemma {:induction false} SelectionNeverEmpty(start: seq<string>, ids: seq<string>)
    requires |start| > 0
    ensures |ToggleAll(start, ids)| > 0
    decreases |ids|
  {
    if |ids| > 0 {
      SelectionNeverEmpty(ToggleChain(start, ids[0]), ids[1..]);
    }
  }

  lemma DefaultSelectionNeverEmpty(ids: seq<string>)
    ensures |ToggleAll(DefaultChains, ids)| > 0
  {
    SelectionNeverEmpty(DefaultChains, ids);
  }

  /** `handleSearch()`: the term searched for is the trimmed input, or
      `"top"` when the input is blank. */
  function SearchTerm(input: string): (term: string)
    ensures term != [] && IsTrimmed(term)
    ensures Trim(input) != [] ==> term == Trim(input)
    ensures Trim(input) == [] ==> term == DefaultTerm
  {
    TrimmedOr(input, DefaultTerm)
  }

  /** Submitting a term that was already submitted changes nothing. */
  lemma SearchTermIdempotent(input: string)
    ensures SearchTerm(SearchTerm(input)) == SearchTerm(input)
  {
  }

  /** Some pair of the list has this address. */
  ghost predicate Listed(ps: seq<DexPair>, address: string) {
    exists i :: 0 <= i < |ps| && ps[i].pairAddress == address
  }

  /** No pair before index `i` has this address. */
  ghost predicate FirstAt(ps: seq<DexPair>, address: string, i: int) {
    forall j :: 0 <= j < i && j < |ps| ==> ps[j].pairAddress != address
  }

  /** `pairs.find((pair) => pair.pairAddress === address)`: the first pair
      with that address. */
  function FindByAddress(ps: seq<DexPair>, address: string): (r: Option<DexPair>)
    ensures r.Some? <==> Listed(ps, address)
    ensures r.Some? ==> r.value in ps && r.value.pairAddress == address
    ensures r.Some? ==> exists i :: 0 <= i < |ps| && ps[i] == r.value && FirstAt(ps, address, i)
    decreases |ps|
  {
    if |ps| == 0 then None
    else if ps[0].pairAddress == address then Some(ps[0])
    else
      var r := FindByAddress(ps[1..], address);
      assert r.Some? ==> exists i :: 0 <= i < |ps| && ps[i] == r.value && FirstAt(ps, address, i) by {
        if r.Some? {
          var i :| 0 <= i < |ps[1..]| && ps[1..][i] == r.value && FirstAt(ps[1..], address, i);
          assert ps[i + 1] == r.value;
          forall j | 0 <= j < i + 1
            ensures ps[j].pairAddress != address
          {
            if j > 0 {
              assert ps[j] == ps[1..][j - 1];
            }
          }
          assert FirstAt(ps, address, i + 1);
        }
      }
      assert Listed(ps[1..], address) ==> Listed(ps, address) by {
        if Listed(ps[1..], address) {
          var i :| 0 <= i < |ps[1..]| && ps[1..][i].pairAddress == address;
          assert ps[i + 1] == ps[1..][i];
        }
      }
      assert Listed(ps, address) ==> Listed(ps[1..], address) by {
        if Listed(ps, address) {
          var i :| 0 <= i < |ps| && ps[i].pairAddress == address;
          assert i > 0 && ps[1..][i - 1] == ps[i];
        }
      }
      r
  }

  /** The selected-pair effect: the selection that the page holds after
      the effect has run against the current list. */
  function Reconcile(ps: seq<DexPair>, selected: Option<DexPair>): (r: Option<DexPair>)
    ensures |ps| == 0 ==> r == selected
    ensures |ps| > 0 && selected.None? ==> r == Some(ps[0])
    ensures |ps| > 0 && selected.Some? && !Listed(ps, selected.value.pairAddress) ==> r == Some(ps[0])
    ensures selected.Some? && Listed(ps, selected.value.pairAddress) ==> r == selected
  {
    if selected.None? && |ps| > 0 then Some(ps[0])
    else if selected.Some? then
      var found := FindByAddress(ps, selected.value.pairAddress);
      if found.None? && |ps| > 0 then Some(ps[0]) else selected
    else selected
  }

  /** Running the effect again after it has run changes nothing. */
  lemma ReconcileIdempotent(ps: seq<DexPair>, selected: Option<DexPair>)
    ensures Reconcile(ps, Reconcile(ps, selected)) == Reconcile(ps, selected)
  {
  }

  /** `selectedPair?.pairAddress`, the address handed to the table. */
  function SelectedAddress(selected: Option<DexPair>): Option<string> {
    if selected.Some? then Some(selected.value.pairAddress) else None
  }

  /** After the effect, a non-empty table always highlights some row. */
  lemma ReconciledRowHighlighted(ps: seq<DexPair>, selected: Option<DexPair>)
    requires |ps| > 0
    ensures exists i :: 0 <= i < |ps| && IsSelected(SelectedAddress(Reconcile(ps, selected)), ps[i])
  {
    var r := Reconcile(ps, selected);
    if r == Some(ps[0]) {
      assert IsSelected(SelectedAddress(r), ps[0]);
    } else {
      var i :| 0 <= i < |ps| && ps[i].pairAddress == selected.value.pairAddress;
      assert IsSelected(SelectedAddress(r), ps[i]);
    }
  }
}
