/**
 * The watchlist store (hooks/use-wishlist.ts): a list of symbols kept in
 * memory and written through, as a whole, to one key of the device's
 * key-value storage.
 *
 * The storage read and `JSON.parse` are not modelled; their combined outcome
 * is an input to `Load`. Whether a write succeeds is an input to the
 * operations that write. Each operation runs to completion before the next.
 */
module UseWishlist {
  import opened Wrappers
  import Seqs

  /** The storage key the list is kept under. */
  const StorageKey: string := "wishlist_symbols_v1"

  /** The error text used when a failed read or parse carries no message. */
  const DefaultLoadError: string := "Failed to load wishlist"

  /** What reading the key and parsing its text produced. */
  datatype ReadOutcome =
    | Missing                        // no value under the key
    | Empty                          // the empty string
    | ParsedArray(items: seq<string>)
    | ParsedNonArray                 // valid JSON that is not an array
    | Failed(message: string)        // the read or the parse threw; `message` may be empty

  /** One `setItem` call: the key and the list whose JSON text was written. */
  datatype Write = Write(key: string, list: seq<string>)

  /** The symbols other than `x`. */
  function Other(x: string): (keep: string -> bool)
    ensures forall s :: keep(s) <==> s != x
  {
    (s: string) => s != x
  }

  /** The list after `add(x)`: unchanged if `x` is present, else `x` appended. */
  function Added(current: seq<string>, x: string): (r: seq<string>)
    ensures x in r
    ensures forall y :: y in r <==> y in current || y == x
    ensures |current| <= |r| && r[..|current|] == current
    ensures x in current ==> r == current
    ensures x !in current ==> r == current + [x]
    ensures Seqs.NoDuplicates(current) ==> Seqs.NoDuplicates(r)
  {
    if x in current then current else current + [x]
  }

  /** The list after `remove(x)`: unchanged if `x` is absent, else every `x` filtered out. */
  function Removed(current: seq<string>, x: string): (r: seq<string>)
    ensures x !in r
    ensures forall y :: y in r <==> y in current && y != x
    ensures Seqs.IsSubsequence(r, current)
    ensures forall y :: y != x ==> multiset(r)[y] == multiset(current)[y]
    ensures Seqs.NoDuplicates(current) ==> Seqs.NoDuplicates(r)
  {
    Seqs.FilterCount(current, Other(x));
    Seqs.FilterIsSubsequence(current, Other(x));
    Seqs.FilterNoDuplicates(current, Other(x));
    if x !in current then
      Seqs.FilterKeepsAll(current, Other(x));
      current
    else Seqs.Filter(current, Other(x))
  }

  /** The list after `toggle(x)`: removed if present, else added. */
  function Toggled(current: seq<string>, x: string): (r: seq<string>)
    ensures x in r <==> x !in current
    ensures forall y :: y != x ==> (y in r <==> y in current)
    ensures Seqs.NoDuplicates(current) ==> Seqs.NoDuplicates(r)
  {
    if x in current then Removed(current, x) else Added(current, x)
  }

  /**
   * Two toggles of the same symbol restore its membership; starting from a
   * list without it they restore the list exactly, and from a list without
   * duplicates they restore its contents (with `x` moved to the end).
   */
  lemma ToggleTwice(current: seq<string>, x: string)
    ensures x in Toggled(Toggled(current, x), x) <==> x in current
    ensures x !in current ==> Toggled(Toggled(current, x), x) == current
    ensures x in current && Seqs.NoDuplicates(current) ==>
      Toggled(Toggled(current, x), x) == Removed(current, x) + [x]
      && multiset(Toggled(Toggled(current, x), x)) == multiset(current)
  {
    if x !in current {
      ToggleTwiceAbsent(current, x);
    } else if Seqs.NoDuplicates(current) {
      ToggleTwicePresent(current, x);
    }
  }

  lemma ToggleTwiceAbsent(current: seq<string>, x: string)
    requires x !in current
    ensures Toggled(Toggled(current, x), x) == current
  {
    assert Toggled(current, x) == current + [x];
    assert Toggled(current + [x], x) == Seqs.Filter(current + [x], Other(x));
    Seqs.FilterConcat(current, [x], Other(x));
    Seqs.FilterKeepsAll(current, Other(x));
    Seqs.FilterSingleton(x, Other(x));
  }

  lemma ToggleTwicePresent(current: seq<string>, x: string)
    requires x in current && Seqs.NoDuplicates(current)
    ensures Toggled(Toggled(current, x), x) == Removed(current, x) + [x]
    ensures multiset(Toggled(Toggled(current, x), x)) == multiset(current)
  {
    var removed := Removed(current, x);
    assert Toggled(current, x) == removed;
    assert Toggled(removed, x) == removed + [x];
    Seqs.NoDuplicatesCount(current, x);
    var after := multiset(removed + [x]);
    assert after == multiset(removed) + multiset{x};
    forall y ensures after[y] == multiset(current)[y] {
      if y == x {
        assert multiset(removed)[x] == 0;
        assert x in multiset(current);
      }
    }
    assert after == multiset(current);
  }

  class WishlistStore {
    /** The list in memory; `None` until the first load or write. */
    var symbols: Option<seq<string>>
    var loading: bool
    var error: Option<string>
    /** The list whose JSON text is under `StorageKey` (`None` when nothing is). */
    ghost var stored: Option<seq<string>>
    /** Every `setItem` call made so far, in order. */
    ghost var writes: seq<Write>

    /** A fresh hook: nothing loaded yet, loading, no error; `persisted` is what storage holds. */
    constructor (ghost persisted: Option<seq<string>>)
      ensures symbols == None && loading && error == None
      ensures stored == persisted && writes == []
    {
      symbols := None;
      loading := true;
      error := None;
      stored := persisted;
      writes := [];
    }

    /** The list the hook exposes: `symbols || []`. */
    function Symbols(): (r: seq<string>)
      reads this
      ensures symbols.None? ==> r == []
      ensures symbols.Some? ==> r == symbols.value
    {
      symbols.GetOr([])
    }

    /** `isInWishlist(x)`: membership in a set built from the exposed list. */
    function IsInWishlist(x: string): (b: bool)
      reads this
      ensures b <==> x in Symbols()
      ensures symbols == None ==> !b
    {
      var members := set s | s in Symbols();
      x in members
    }

    /**
     * `load()`: clears the error; an absent or empty value, or JSON that is
     * not an array, gives the empty list; an array gives that array; a
     * failure records its message (or the default) and leaves the list as it
     * was. Loading is over afterwards in every case, and nothing is written.
     */
    method Load(outcome: ReadOutcome)
      modifies this
      ensures !loading
      ensures outcome.Missing? || outcome.Empty? || outcome.ParsedNonArray? ==> symbols == Some([]) && error == None
      ensures outcome.ParsedArray? ==> symbols == Some(outcome.items) && error == None
      ensures outcome.Failed? ==> symbols == old(symbols)
      ensures outcome.Failed? ==> error == Some(if outcome.message != "" then outcome.message else DefaultLoadError)
      ensures stored == old(stored) && writes == old(writes)
    {
      error := None;
      match outcome {
        case Missing =>
          symbols := Some([]);
        case Empty =>
          symbols := Some([]);
        case ParsedArray(items) =>
          symbols := Some(items);
        case ParsedNonArray =>
          symbols := Some([]);
        case Failed(message) =>
          error := Some(if message != "" then message else DefaultLoadError);
      }
      loading := false;
    }

    /**
     * `save(next)`: the list in memory becomes `next` before the write; one
     * write of the whole list under `StorageKey` follows. A failed write
     * leaves the stored value as it was and records no error.
     */
    method Save(next: seq<string>, writeSucceeds: bool)
      modifies this
      ensures symbols == Some(next)
      ensures writes == old(writes) + [Write(StorageKey, next)]
      ensures stored == if writeSucceeds then Some(next) else old(stored)
      ensures loading == old(loading) && error == old(error)
    {
      symbols := Some(next);
      writes := writes + [Write(StorageKey, next)];
      if writeSucceeds {
        stored := Some(next);
      }
    }

    /** `add(x)`: nothing at all when `x` is present, else one save of the list with `x` appended. */
    method Add(x: string, writeSucceeds: bool)
      modifies this
      ensures x in old(Symbols()) ==> unchanged(this)
      ensures x !in old(Symbols()) ==>
        symbols == Some(old(Symbols()) + [x])
        && writes == old(writes) + [Write(StorageKey, old(Symbols()) + [x])]
        && stored == (if writeSucceeds then symbols else old(stored))
      ensures Symbols() == Added(old(Symbols()), x)
      ensures loading == old(loading) && error == old(error)
    {
      var current := Symbols();
      if x in current {
        return;
      }
      Save(current + [x], writeSucceeds);
    }

    /** `remove(x)`: nothing at all when `x` is absent, else one save of the list without `x`. */
    method Remove(x: string, writeSucceeds: bool)
      modifies this
      ensures x !in old(Symbols()) ==> unchanged(this)
      ensures x in old(Symbols()) ==>
        symbols == Some(Removed(old(Symbols()), x))
        && writes == old(writes) + [Write(StorageKey, Removed(old(Symbols()), x))]
        && stored == (if writeSucceeds then symbols else old(stored))
      ensures Symbols() == Removed(old(Symbols()), x)
      ensures loading == old(loading) && error == old(error)
    {
      var current := Symbols();
      if x !in current {
        return;
      }
      Save(Seqs.Filter(current, Other(x)), writeSucceeds);
    }

    /** `toggle(x)`: exactly one of remove (when present) and add (when absent), so exactly one write. */
    method Toggle(x: string, writeSucceeds: bool)
      modifies this
      ensures symbols == Some(Toggled(old(Symbols()), x))
      ensures writes == old(writes) + [Write(StorageKey, Toggled(old(Symbols()), x))]
      ensures stored == if writeSucceeds then symbols else old(stored)
      ensures IsInWishlist(x) != old(IsInWishlist(x))
      ensures old(symbols).None? ==> writes == old(writes) + [Write(StorageKey, [x])]
      ensures loading == old(loading) && error == old(error)
    {
      var current := Symbols();
      if x in current {
        Remove(x, writeSucceeds);
      } else {
        Add(x, writeSucceeds);
      }
    }
  }
}
