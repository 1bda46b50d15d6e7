/**
 JavaScript's fallback chains `obj.k1 || obj.k2 || …` over string-valued properties: a
 missing key and an empty string are both falsy, so the chain yields the first key whose
 value is a non-empty string.
 */
module Fields {
  import opened Wrappers
  import opened Text

  /** `m[k]` is truthy: the key is present and its value is not the empty string. */
  predicate Truthy(m: map<String, String>, k: String) {
    k in m && m[k] != []
  }

  /** No key of the chain is truthy in `m`. */
  predicate NoneTruthy(m: map<String, String>, keys: seq<String>) {
    forall k :: 0 <= k < |keys| ==> !Truthy(m, keys[k])
  }

  /** The two maps hold the same entries for every key of `keys`. */
  predicate SameOn(m1: map<String, String>, m2: map<String, String>, keys: seq<String>) {
    forall k :: 0 <= k < |keys| ==>
      (keys[k] in m1 <==> keys[k] in m2) && (keys[k] in m1 ==> m1[keys[k]] == m2[keys[k]])
  }

  /** `m[keys[0]] || m[keys[1]] || …`: the value of the first truthy key, or `None` when
      none is truthy (the chain's last falsy operand, which every caller treats like an
      absent value). */
  function FirstPresent(m: map<String, String>, keys: seq<String>): (r: Option<String>)
    ensures r.None? <==> NoneTruthy(m, keys)
    ensures r.Some? ==> r.value != []
  {
    if |keys| == 0 then None
    else if Truthy(m, keys[0]) then Some(m[keys[0]])
    else FirstPresent(m, keys[1..])
  }

  /** A present result is the value of a truthy key that no earlier key precedes. */
  lemma {:induction false} FirstPresentLeftmost(m: map<String, String>, keys: seq<String>)
    requires FirstPresent(m, keys).Some?
    ensures exists k :: 0 <= k < |keys| && Truthy(m, keys[k]) && FirstPresent(m, keys).value == m[keys[k]]
                        && forall j :: 0 <= j < k ==> !Truthy(m, keys[j])
  {
    if Truthy(m, keys[0]) {
      assert Truthy(m, keys[0]) && FirstPresent(m, keys).value == m[keys[0]];
    } else {
      var tail := keys[1..];
      FirstPresentLeftmost(m, tail);
      var k :| 0 <= k < |tail| && Truthy(m, tail[k]) && FirstPresent(m, tail).value == m[tail[k]]
               && forall j :: 0 <= j < k ==> !Truthy(m, tail[j]);
      assert keys[k + 1] == tail[k];
      forall j | 0 <= j < k + 1
        ensures !Truthy(m, keys[j])
      {
        if j > 0 {
          assert keys[j] == tail[j - 1];
        }
      }
    }
  }

  /** The chain reads nothing but the entries of its own keys. */
  lemma {:induction false} FirstPresentAgree(m1: map<String, String>, m2: map<String, String>, keys: seq<String>)
    requires SameOn(m1, m2, keys)
    ensures FirstPresent(m1, keys) == FirstPresent(m2, keys)
  {
    if |keys| > 0 {
      assert SameOn(m1, m2, keys[1..]) by {
        forall k | 0 <= k < |keys[1..]|
          ensures (keys[1..][k] in m1 <==> keys[1..][k] in m2)
          ensures keys[1..][k] in m1 ==> m1[keys[1..][k]] == m2[keys[1..][k]]
        {
          assert keys[1..][k] == keys[k + 1];
        }
      }
      FirstPresentAgree(m1, m2, keys[1..]);
    }
  }

  /** The maps agree on every key of the concatenation, so on each part. */
  lemma SameOnParts(m1: map<String, String>, m2: map<String, String>, a: seq<String>, b: seq<String>)
    requires SameOn(m1, m2, a + b)
    ensures SameOn(m1, m2, a) && SameOn(m1, m2, b)
  {
    forall k | 0 <= k < |a|
      ensures (a[k] in m1 <==> a[k] in m2) && (a[k] in m1 ==> m1[a[k]] == m2[a[k]])
    {
      assert (a + b)[k] == a[k];
    }
    forall k | 0 <= k < |b|
      ensures (b[k] in m1 <==> b[k] in m2) && (b[k] in m1 ==> m1[b[k]] == m2[b[k]])
    {
      assert (a + b)[|a| + k] == b[k];
    }
  }

  /** Changing the entry of a key outside the chain changes nothing. */
  lemma UpdateElsewhere(m: map<String, String>, keys: seq<String>, k: String, v: String)
    requires k !in keys
    ensures FirstPresent(m[k := v], keys) == FirstPresent(m, keys)
  {
    forall i | 0 <= i < |keys|
      ensures (keys[i] in m[k := v] <==> keys[i] in m)
      ensures keys[i] in m ==> m[k := v][keys[i]] == m[keys[i]]
    {
      assert keys[i] != k;
    }
    FirstPresentAgree(m[k := v], m, keys);
  }

  /** A truthy key shadows every later key of the chain: changing a later key's entry
      changes nothing. */
  lemma {:induction false} LaterKeyShadowed(m: map<String, String>, keys: seq<String>, i: nat, j: nat, v: String)
    requires i < j < |keys| && Truthy(m, keys[i]) && keys[j] !in keys[..j]
    ensures FirstPresent(m[keys[j] := v], keys) == FirstPresent(m, keys)
  {
    var m2 := m[keys[j] := v];
    assert keys[i] in keys[..j];
    assert keys[i] != keys[j] && Truthy(m2, keys[i]);
    if i > 0 {
      assert keys[0] in keys[..j];
      assert keys[1..][i - 1] == keys[i] && keys[1..][j - 1] == keys[j];
      assert keys[1..][..j - 1] == keys[..j][1..];
      LaterKeyShadowed(m, keys[1..], i - 1, j - 1, v);
    }
  }
}
