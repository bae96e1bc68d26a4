/** A Python `dict` with string keys: a map together with the order in which
    its keys were first inserted.  Assigning to a key that is already present
    replaces its value and keeps its position. */
module ODicts {

  datatype ODict<V> = ODict(keys: seq<string>, vals: map<string, V>)
  {
    /** The keys are distinct and are exactly the keys of the map. */
    ghost predicate Valid()
    {
      && (forall i, j :: 0 <= i < j < |keys| ==> keys[i] != keys[j])
      && (forall k :: k in vals <==> k in keys)
    }
  }

  function Empty<V>(): (d: ODict<V>)
    ensures d.Valid() && d.keys == [] && d.vals == map[]
  {
    ODict([], map[])
  }

  /** `d[k] = v`. */
  function Put<V>(d: ODict<V>, k: string, v: V): (r: ODict<V>)
    requires d.Valid()
    ensures r.Valid()
    ensures r.vals == d.vals[k := v]
    ensures k in d.vals ==> r.keys == d.keys
    ensures k !in d.vals ==> r.keys == d.keys + [k]
  {
    if k in d.vals then ODict(d.keys, d.vals[k := v]) else ODict(d.keys + [k], d.vals[k := v])
  }

  /** `{k: v ... } if k not in d` — the insert-if-absent the settings
      initialisers perform: an existing entry is never overwritten. */
  function PutIfAbsent<V>(d: ODict<V>, k: string, v: V): (r: ODict<V>)
    requires d.Valid()
    ensures r.Valid()
    ensures k in d.vals ==> r == d
    ensures k !in d.vals ==> r.keys == d.keys + [k] && r.vals == d.vals[k := v]
  {
    if k in d.vals then d else Put(d, k, v)
  }

  /** A loop `for k, v in entries: if k not in d: d[k] = v`. */
  function InsertEntries<V>(d: ODict<V>, es: seq<(string, V)>): (r: ODict<V>)
    requires d.Valid()
    ensures r.Valid()
  {
    if es == [] then d
    else
      var n := |es| - 1;
      PutIfAbsent(InsertEntries(d, es[..n]), es[n].0, es[n].1)
  }

  /** A loop `for k, v in entries: d[k] = v`. */
  function PutEntries<V>(d: ODict<V>, es: seq<(string, V)>): (r: ODict<V>)
    requires d.Valid()
    ensures r.Valid()
  {
    if es == [] then d
    else
      var n := |es| - 1;
      Put(PutEntries(d, es[..n]), es[n].0, es[n].1)
  }

  ghost predicate HasKey<V>(es: seq<(string, V)>, k: string)
  {
    exists i :: 0 <= i < |es| && es[i].0 == k
  }

  /** Inserting if absent never overwrites: existing entries keep their
      values and positions, and the keys afterwards are the old ones and
      the entries' ones. */
  lemma {:induction false} InsertEntriesKeeps<V>(d: ODict<V>, es: seq<(string, V)>)
    requires d.Valid()
    ensures var r := InsertEntries(d, es);
            && d.keys <= r.keys
            && (forall k :: k in d.vals ==> r.vals[k] == d.vals[k])
            && (forall k :: k in r.vals <==> k in d.vals || HasKey(es, k))
  {
    if es != [] {
      var n := |es| - 1;
      InsertEntriesKeeps(d, es[..n]);
      forall k ensures HasKey(es, k) <==> HasKey(es[..n], k) || es[n].0 == k {
        if HasKey(es, k) && es[n].0 != k {
          var i :| 0 <= i < |es| && es[i].0 == k;
          assert es[..n][i].0 == k;
        }
        if HasKey(es[..n], k) {
          var i :| 0 <= i < n && es[..n][i].0 == k;
          assert es[i].0 == k;
        }
      }
    }
  }

  /** A key absent before gets the value of its first entry. */
  lemma {:induction false} InsertEntriesFirstWins<V>(d: ODict<V>, es: seq<(string, V)>, i: nat)
    requires d.Valid()
    requires i < |es| && es[i].0 !in d.vals
    requires forall j :: 0 <= j < i ==> es[j].0 != es[i].0
    ensures es[i].0 in InsertEntries(d, es).vals && InsertEntries(d, es).vals[es[i].0] == es[i].1
  {
    var n := |es| - 1;
    if i == n {
      InsertEntriesKeeps(d, es[..n]);
      forall j | 0 <= j < n ensures es[..n][j].0 != es[n].0 {
        assert es[..n][j] == es[j];
      }
    } else {
      InsertEntriesFirstWins(d, es[..n], i);
    }
  }

  /** Overwriting: a key gets the value of its last entry, and a key without
      entries keeps its value. */
  lemma {:induction false} PutEntriesLastWins<V>(d: ODict<V>, es: seq<(string, V)>, i: nat)
    requires d.Valid()
    requires i < |es|
    requires forall j :: i < j < |es| ==> es[j].0 != es[i].0
    ensures es[i].0 in PutEntries(d, es).vals && PutEntries(d, es).vals[es[i].0] == es[i].1
  {
    var n := |es| - 1;
    if i < n {
      var p := es[..n];
      assert p[i] == es[i];
      forall j | i < j < n ensures p[j].0 != p[i].0 {
        assert p[j] == es[j];
      }
      PutEntriesLastWins(d, p, i);
      assert es[n].0 != es[i].0;
    }
  }

  lemma {:induction false} PutEntriesOthers<V>(d: ODict<V>, es: seq<(string, V)>)
    requires d.Valid()
    ensures var r := PutEntries(d, es);
            && d.keys <= r.keys
            && (forall k :: k in d.vals && !HasKey(es, k) ==> r.vals[k] == d.vals[k])
            && (forall k :: k in r.vals <==> k in d.vals || HasKey(es, k))
  {
    if es != [] {
      var n := |es| - 1;
      PutEntriesOthers(d, es[..n]);
      forall k ensures HasKey(es, k) <==> HasKey(es[..n], k) || es[n].0 == k {
        if HasKey(es, k) && es[n].0 != k {
          var i :| 0 <= i < |es| && es[i].0 == k;
          assert es[..n][i].0 == k;
        }
        if HasKey(es[..n], k) {
          var i :| 0 <= i < n && es[..n][i].0 == k;
          assert es[i].0 == k;
        }
      }
    }
  }

  lemma InsertEntriesSnoc<V>(d: ODict<V>, es: seq<(string, V)>, i: nat)
    requires d.Valid() && i < |es|
    ensures InsertEntries(d, es[..i + 1]) == PutIfAbsent(InsertEntries(d, es[..i]), es[i].0, es[i].1)
  {
    assert es[..i + 1][..i] == es[..i];
  }

  lemma PutEntriesSnoc<V>(d: ODict<V>, es: seq<(string, V)>, i: nat)
    requires d.Valid() && i < |es|
    ensures PutEntries(d, es[..i + 1]) == Put(PutEntries(d, es[..i]), es[i].0, es[i].1)
  {
    assert es[..i + 1][..i] == es[..i];
  }

  /** One entry per key, all with the same value. */
  function Keyed<V>(ks: seq<string>, v: V): (es: seq<(string, V)>)
    ensures |es| == |ks| && forall i :: 0 <= i < |es| ==> es[i] == (ks[i], v)
  {
    seq(|ks|, i requires 0 <= i < |ks| => (ks[i], v))
  }

  /** Inserting one value under each of a list of keys if absent: existing
      entries are kept, each listed key that was absent gets the value, and
      the keys afterwards are the old ones and the listed ones. */
  lemma InsertKeyed<V>(d: ODict<V>, ks: seq<string>, v: V)
    requires d.Valid()
    ensures var r := InsertEntries(d, Keyed(ks, v));
            && d.keys <= r.keys
            && (forall k :: k in d.vals ==> r.vals[k] == d.vals[k])
            && (forall k :: k in r.vals <==> k in d.vals || k in ks)
            && (forall k :: k in ks && k !in d.vals ==> r.vals[k] == v)
  {
    var es := Keyed(ks, v);
    InsertByKeys(d, es, ks);
    forall k | k in ks && k !in d.vals ensures InsertEntries(d, es).vals[k] == v {
      var i := FirstPosition(ks, k);
      InsertEntriesFirstWins(d, es, i);
    }
  }

  /** Inserting if absent the entries of a list of keys: existing entries
      are kept, and the keys afterwards are the old ones and the listed
      ones. */
  lemma InsertByKeys<V>(d: ODict<V>, es: seq<(string, V)>, ks: seq<string>)
    requires d.Valid()
    requires |es| == |ks| && forall i :: 0 <= i < |es| ==> es[i].0 == ks[i]
    ensures var r := InsertEntries(d, es);
            && d.keys <= r.keys
            && (forall k :: k in d.vals ==> r.vals[k] == d.vals[k])
            && (forall k :: k in r.vals <==> k in d.vals || k in ks)
  {
    InsertEntriesKeeps(d, es);
    forall k ensures HasKey(es, k) <==> k in ks {
      if k in ks {
        var i :| 0 <= i < |ks| && ks[i] == k;
        assert es[i].0 == k;
      }
    }
  }

  /** The first position of a key in a list. */
  function FirstPosition(ks: seq<string>, k: string): (i: nat)
    requires k in ks
    ensures i < |ks| && ks[i] == k && forall j :: 0 <= j < i ==> ks[j] != k
  {
    if ks[0] == k then 0 else 1 + FirstPosition(ks[1..], k)
  }

  /** `len(d)`: the number of entries is the number of keys. */
  lemma SizeIsKeyCount<V>(d: ODict<V>)
    requires d.Valid()
    ensures |d.vals| == |d.keys|
  {
    DistinctKeyCount(d.keys);
    assert d.vals.Keys == set k | k in d.keys;
  }

  lemma {:induction false} DistinctKeyCount(ks: seq<string>)
    requires forall i, j :: 0 <= i < j < |ks| ==> ks[i] != ks[j]
    ensures |set k | k in ks| == |ks|
  {
    if ks != [] {
      var n := |ks| - 1;
      DistinctKeyCount(ks[..n]);
      assert (set k | k in ks) == (set k | k in ks[..n]) + {ks[n]};
      assert ks[n] !in ks[..n];
    }
  }
}
