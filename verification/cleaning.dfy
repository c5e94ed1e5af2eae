/**
 * `remove_nan` (lamd/mdlist.py lines 520-530): the record handed to a
 * template loses its missing entries, in nested dicts too.
 */
module Cleaning {
  import opened Values

  /**
   * Whether `remove_nan` deletes an entry that is not a dict: `pd.isna`
   * must return a plain bool (so not for a list) that is true.
   */
  predicate Dropped(v: Value) {
    v.Missing?
  }

  /** The dictionary `remove_nan` returns. */
  function Cleaned(d: map<string, Value>): (r: map<string, Value>)
    ensures r.Keys == set k | k in d && !d[k].Missing?
    ensures forall k :: k in r ==> !r[k].Missing? && r[k].Dict? == d[k].Dict?
    decreases Dict(d)
  {
    map k | k in d && !Dropped(d[k]) :: if d[k].Dict? then Dict(Cleaned(d[k].entries)) else d[k]
  }

  /** No missing entry at any depth of dict nesting (lists are not looked into). */
  ghost predicate NoMissing(d: map<string, Value>)
    decreases Dict(d)
  {
    forall k :: k in d ==> !d[k].Missing? && (d[k].Dict? ==> NoMissing(d[k].entries))
  }

  /** The cleaned dictionary has no missing entry at any depth. */
  lemma {:induction false} CleanedHasNoMissing(d: map<string, Value>)
    ensures NoMissing(Cleaned(d))
    decreases Dict(d)
  {
    forall k | k in Cleaned(d)
      ensures !Cleaned(d)[k].Missing? && (Cleaned(d)[k].Dict? ==> NoMissing(Cleaned(d)[k].entries))
    {
      if d[k].Dict? {
        CleanedHasNoMissing(d[k].entries);
      }
    }
  }

  /**
   * Only missing entries go: every other key stays, with its value unless
   * that value is a dict, which is cleaned in turn.
   */
  lemma CleanedKeeps(d: map<string, Value>)
    ensures Cleaned(d).Keys == set k | k in d && !d[k].Missing?
    ensures forall k :: k in d && !d[k].Missing? && !d[k].Dict? ==> Cleaned(d)[k] == d[k]
    ensures forall k :: k in d && d[k].Dict? ==> Cleaned(d)[k] == Dict(Cleaned(d[k].entries))
  {
  }

  /** A dictionary without missing entries is returned unchanged. */
  lemma {:induction false} CleanedKeepsClean(d: map<string, Value>)
    requires NoMissing(d)
    ensures Cleaned(d) == d
    decreases Dict(d)
  {
    forall k | k in d && d[k].Dict?
      ensures Cleaned(d[k].entries) == d[k].entries
    {
      CleanedKeepsClean(d[k].entries);
    }
    assert Cleaned(d).Keys == d.Keys;
  }

  /** Cleaning twice is cleaning once. */
  lemma CleanedIdempotent(d: map<string, Value>)
    ensures Cleaned(Cleaned(d)) == Cleaned(d)
  {
    CleanedHasNoMissing(d);
    CleanedKeepsClean(Cleaned(d));
  }

  /** `remove_nan(dictionary)`: copy the dictionary, then delete or clean entry by entry. */
  method RemoveNan(d: map<string, Value>) returns (r: map<string, Value>)
    ensures r == Cleaned(d)
    decreases Dict(d)
  {
    r := d;
    var pending := d.Keys;
    while pending != {}
      invariant pending <= d.Keys
      invariant forall k :: k in pending ==> k in r && r[k] == d[k]
      invariant forall k :: k in d && k !in pending ==> (k in r <==> k in Cleaned(d))
      invariant forall k :: k in r && k !in pending ==> k in Cleaned(d) && r[k] == Cleaned(d)[k]
      invariant r.Keys <= d.Keys
      decreases pending
    {
      var k :| k in pending;
      var entry := d[k];
      if entry.Dict? {
        var inner := RemoveNan(entry.entries);
        r := r[k := Dict(inner)];
      } else if Dropped(entry) {
        r := r - {k};
      }
      pending := pending - {k};
    }
  }
}
