/**
 * Header objects as the script mutates them: a JavaScript object whose keys
 * enumerate in insertion order. `normalizeHeaders` lower-cases the keys of
 * such an object in place, and `createRequest` merges the default headers,
 * the user agent, the user's headers and the host header into it.
 */
module Headers {
  import opened Text
  import Ordering

  /** The distinct key sequence and the field map of a header object, as values. */
  datatype HeaderView = HeaderView(names: seq<string>, fields: map<string, string>)

  /** `Object.keys` enumerates each field exactly once. */
  predicate WellFormed(h: HeaderView) {
    Ordering.Distinct(h.names)
    && (forall i :: 0 <= i < |h.names| ==> h.names[i] in h.fields)
    && (forall k :: k in h.fields ==> k in h.names)
  }

  /** Every name in the sequence is a field of the map. */
  predicate InDomain(names: seq<string>, fields: map<string, string>) {
    forall i :: 0 <= i < |names| ==> names[i] in fields
  }

  /** `s` without the element `k`, order kept. */
  function Without(s: seq<string>, k: string): (r: seq<string>)
    ensures forall x :: x in r <==> x in s && x != k
    ensures forall i :: 0 <= i < |r| ==> r[i] in s && r[i] != k
    ensures Ordering.Distinct(s) ==> Ordering.Distinct(r)
    decreases |s|
  {
    if s == [] then []
    else if s[0] == k then Without(s[1..], k)
    else
      var rest := Without(s[1..], k);
      assert forall j :: 0 <= j < |rest| ==> rest[j] in s[1..];
      [s[0]] + rest
  }

  /** A JavaScript object used as a header map, updated in place. */
  class HeaderObject {
    var names: seq<string>
    var fields: map<string, string>

    ghost predicate Valid()
      reads this
    {
      WellFormed(HeaderView(names, fields))
    }

    function View(): HeaderView
      reads this
    {
      HeaderView(names, fields)
    }

    constructor (init: HeaderView)
      requires WellFormed(init)
      ensures Valid() && View() == init
    {
      names := init.names;
      fields := init.fields;
    }

    /** `obj[k] = v`: a new key goes to the end of the key order. */
    method Set(k: string, v: string)
      requires Valid()
      modifies this
      ensures Valid()
      ensures fields == old(fields)[k := v]
      ensures names == if k in old(fields) then old(names) else old(names) + [k]
    {
      if k !in fields {
        names := names + [k];
      }
      fields := fields[k := v];
    }

    /** `delete obj[k]`. */
    method Delete(k: string)
      requires Valid()
      modifies this
      ensures Valid()
      ensures fields == old(fields) - {k}
      ensures names == Without(old(names), k)
    {
      names := Without(names, k);
      fields := fields - {k};
    }

    /** `Object.assign(obj, src)` for one source object. */
    method Assign(src: map<string, string>)
      requires Valid()
      modifies this
      ensures Valid()
      ensures fields == old(fields) + src
    {
      ghost var before := fields;
      var todo := src.Keys;
      while todo != {}
        invariant Valid()
        invariant todo <= src.Keys
        invariant forall k :: k in fields <==> k in before || (k in src && k !in todo)
        invariant forall k :: k in fields ==>
                    fields[k] == if k in src && k !in todo then src[k] else before[k]
        decreases todo
      {
        var k :| k in todo;
        Set(k, src[k]);
        todo := todo - {k};
      }
      assert fields.Keys == (before + src).Keys;
    }
  }

  /** One step of `normalizeHeaders` for `name`, reading its original value from `orig`. */
  function NormalizeStep(acc: map<string, string>, orig: map<string, string>, name: string): map<string, string>
    requires name in orig
  {
    var nameLower := Lower(name);
    if name != nameLower then acc[nameLower := orig[name]] - {name} else acc
  }

  /** The field map after `normalizeHeaders` has visited `names` in order. */
  function Normalized(names: seq<string>, orig: map<string, string>): map<string, string>
    requires InDomain(names, orig)
    decreases |names|
  {
    if names == [] then orig
    else NormalizeStep(Normalized(names[..|names| - 1], orig), orig, names[|names| - 1])
  }

  /** The names among `names` that are not already lower-case. */
  function MixedCase(names: seq<string>): set<string> {
    set n | n in names && Lower(n) != n
  }

  function LowerAll(ks: set<string>): set<string> {
    set k | k in ks :: Lower(k)
  }

  /** The last position of a mixed-case spelling of `k` in `names`, or -1. */
  function LastVariant(names: seq<string>, k: string): (i: int)
    ensures -1 <= i < |names|
    ensures 0 <= i ==> Lower(names[i]) == k && names[i] != k
    ensures forall j :: i < j < |names| ==> !(Lower(names[j]) == k && names[j] != k)
    decreases |names|
  {
    if names == [] then -1
    else if Lower(names[|names| - 1]) == k && names[|names| - 1] != k then |names| - 1
    else LastVariant(names[..|names| - 1], k)
  }

  /** Which keys the visited prefix leaves: unvisited or lower-case originals, plus the lowered mixed ones. */
  lemma {:induction false} NormalizedKeys(names: seq<string>, orig: map<string, string>)
    requires InDomain(names, orig)
    ensures Normalized(names, orig).Keys == (orig.Keys - MixedCase(names)) + LowerAll(MixedCase(names))
    decreases |names|
  {
    if names != [] {
      var init := names[..|names| - 1];
      var n := names[|names| - 1];
      NormalizedKeys(init, orig);
      assert names == init + [n];
      if Lower(n) == n {
        assert MixedCase(names) == MixedCase(init);
      } else {
        assert MixedCase(names) == MixedCase(init) + {n};
        var before := Normalized(init, orig);
        assert Normalized(names, orig).Keys == (before.Keys + {Lower(n)}) - {n};
        MixedStepKeys(before.Keys, orig.Keys, MixedCase(init), n);
      }
    }
  }

  /** The key-set effect of moving one mixed-case key to its lower-case spelling. */
  lemma MixedStepKeys(keys: set<string>, origKeys: set<string>, mixed: set<string>, n: string)
    requires keys == (origKeys - mixed) + LowerAll(mixed)
    requires Lower(n) != n
    ensures (keys + {Lower(n)}) - {n} == (origKeys - (mixed + {n})) + LowerAll(mixed + {n})
  {
    assert LowerAll(mixed + {n}) == LowerAll(mixed) + {Lower(n)};
    assert n !in LowerAll(mixed) by {
      forall y | y in mixed ensures Lower(y) != n {
        LowerIsLowerCase(y);
      }
    }
  }

  /**
   * The value of a key after the visited prefix: a mixed-case key not yet
   * visited keeps its own value, and a lower-case key holds the value of its
   * last visited mixed-case spelling, or its original value when there is none.
   */
  lemma {:induction false} NormalizedValues(names: seq<string>, orig: map<string, string>, k: string)
    requires InDomain(names, orig)
    requires k in Normalized(names, orig)
    ensures Lower(k) != k ==> k in orig && Normalized(names, orig)[k] == orig[k]
    ensures Lower(k) == k && LastVariant(names, k) >= 0 ==>
              Normalized(names, orig)[k] == orig[names[LastVariant(names, k)]]
    ensures Lower(k) == k && LastVariant(names, k) < 0 ==>
              k in orig && Normalized(names, orig)[k] == orig[k]
    decreases |names|
  {
    if names != [] {
      var init := names[..|names| - 1];
      var n := names[|names| - 1];
      if Lower(n) == n || k != Lower(n) {
        NormalizedValues(init, orig, k);
        assert LastVariant(names, k) == LastVariant(init, k);
      }
    }
  }

  /** A mixed-case key not yet visited is still present with its original value. */
  lemma {:induction false} UnvisitedMixedKept(names: seq<string>, orig: map<string, string>, i: nat)
    requires InDomain(names, orig) && Ordering.Distinct(names)
    requires i < |names| && Lower(names[i]) != names[i]
    ensures names[i] in Normalized(names[..i], orig)
    ensures Normalized(names[..i], orig)[names[i]] == orig[names[i]]
  {
    var n := names[i];
    NormalizedKeys(names[..i], orig);
    assert n !in MixedCase(names[..i]);
    LowerIsLowerCase(n);
    assert n !in LowerAll(MixedCase(names[..i])) by {
      forall y | y in MixedCase(names[..i]) ensures Lower(y) != n {
        LowerIsLowerCase(y);
      }
    }
    NormalizedValues(names[..i], orig, n);
  }

  lemma NormalizedSnoc(names: seq<string>, orig: map<string, string>, i: nat)
    requires InDomain(names, orig) && i < |names|
    ensures Normalized(names[..i + 1], orig) == NormalizeStep(Normalized(names[..i], orig), orig, names[i])
  {
    assert names[..i + 1][..i] == names[..i];
  }

  /**
   * `normalizeHeaders`: iterates a snapshot of the keys and moves each
   * mixed-case key to its lower-case spelling.
   */
  method NormalizeHeaders(headers: HeaderObject)
    requires headers.Valid()
    modifies headers
    ensures headers.Valid()
    ensures headers.fields == Normalized(old(headers.names), old(headers.fields))
  {
    var names := headers.names;
    ghost var orig := headers.fields;
    var i := 0;
    while i < |names|
      invariant 0 <= i <= |names|
      invariant headers.Valid()
      invariant InDomain(names, orig) && Ordering.Distinct(names)
      invariant headers.fields == Normalized(names[..i], orig)
    {
      var name := names[i];
      var nameLower := Lower(name);
      NormalizedSnoc(names, orig, i);
      if name != nameLower {
        UnvisitedMixedKept(names, orig, i);
        headers.Set(nameLower, headers.fields[name]);
        headers.Delete(name);
      }
      i := i + 1;
    }
    assert names[..|names|] == names;
  }

  /**
   * After `normalizeHeaders` every key is lower-case, and the keys are exactly
   * the lower-cased original keys.
   */
  lemma NormalizedKeySet(h: HeaderView)
    requires WellFormed(h)
    ensures Normalized(h.names, h.fields).Keys == LowerAll(h.fields.Keys)
    ensures forall k :: k in Normalized(h.names, h.fields) ==> IsLowerCase(k)
  {
    var result := Normalized(h.names, h.fields);
    NormalizedKeys(h.names, h.fields);
    forall k | k in result ensures k in LowerAll(h.fields.Keys) && IsLowerCase(k) {
      LowerIsLowerCase(k);
      if k !in LowerAll(MixedCase(h.names)) {
        assert k in h.fields;
      } else {
        var y :| y in MixedCase(h.names) && k == Lower(y);
        LowerIsLowerCase(y);
      }
    }
    forall k | k in LowerAll(h.fields.Keys) ensures k in result {
      var y :| y in h.fields && k == Lower(y);
      LowerIsLowerCase(y);
      if Lower(y) != y {
        assert y in MixedCase(h.names);
      }
    }
  }

  /** A lower-case key with no mixed-case spelling beside it keeps its value. */
  lemma NormalizedKeepsLoneKey(h: HeaderView, k: string)
    requires WellFormed(h)
    requires k in h.fields && Lower(k) == k
    requires forall other :: other in h.fields && other != k ==> Lower(other) != k
    ensures k in Normalized(h.names, h.fields)
    ensures Normalized(h.names, h.fields)[k] == h.fields[k]
  {
    NormalizedKeySet(h);
    assert k in LowerAll(h.fields.Keys);
    NormalizedValues(h.names, h.fields, k);
  }

  /**
   * The value of a mixed-case key replaces that of its lower-case spelling
   * when no mixed-case spelling of the same name comes later in key order.
   */
  lemma NormalizedMixedWins(h: HeaderView, i: nat)
    requires WellFormed(h)
    requires i < |h.names| && Lower(h.names[i]) != h.names[i]
    requires forall j :: i < j < |h.names| ==> Lower(h.names[j]) != Lower(h.names[i]) || Lower(h.names[j]) == h.names[j]
    ensures Lower(h.names[i]) in Normalized(h.names, h.fields)
    ensures Normalized(h.names, h.fields)[Lower(h.names[i])] == h.fields[h.names[i]]
  {
    var k := Lower(h.names[i]);
    LoweredMixedPresent(h.names, h.fields, i);
    LowerIsLowerCase(h.names[i]);
    NormalizedValues(h.names, h.fields, k);
    assert LastVariant(h.names, k) >= i;
  }

  /** The lower-case spelling of a visited mixed-case key is present afterwards. */
  lemma LoweredMixedPresent(names: seq<string>, orig: map<string, string>, i: nat)
    requires InDomain(names, orig)
    requires i < |names| && Lower(names[i]) != names[i]
    ensures Lower(names[i]) in Normalized(names, orig)
  {
    NormalizedKeys(names, orig);
    assert names[i] in MixedCase(names);
    assert Lower(names[i]) in LowerAll(MixedCase(names));
  }

  /** Visiting keys that are all lower-case changes nothing. */
  lemma {:induction false} NormalizedLowerIsIdentity(names: seq<string>, m: map<string, string>)
    requires InDomain(names, m)
    requires forall k :: k in m ==> IsLowerCase(k)
    ensures Normalized(names, m) == m
    decreases |names|
  {
    if names != [] {
      NormalizedLowerIsIdentity(names[..|names| - 1], m);
      LowerIsLowerCase(names[|names| - 1]);
    }
  }

  /** Normalising an already normalised object, in any key order, is the identity. */
  lemma NormalizeIdempotent(h: HeaderView, again: seq<string>)
    requires WellFormed(h)
    requires WellFormed(HeaderView(again, Normalized(h.names, h.fields)))
    ensures Normalized(again, Normalized(h.names, h.fields)) == Normalized(h.names, h.fields)
  {
    NormalizedKeySet(h);
    NormalizedLowerIsIdentity(again, Normalized(h.names, h.fields));
  }
}
