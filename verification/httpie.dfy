/** The `key=value` arguments of the httpie clone (httpie/src/main.rs): parsing
    one argument into a `KvPair`, and folding the pairs into the map that `post`
    sends as its JSON body.
 */
module Httpie {
  import opened Wrappers

  datatype KvPair = KvPair(k: string, v: string)

  /** The pieces joined back with `=` between them: the inverse of `Split`. */
  function Join(parts: seq<string>): string
    requires |parts| >= 1
  {
    if |parts| == 1 then parts[0] else parts[0] + "=" + Join(parts[1..])
  }

  /** The pieces `str::split("=")` yields, in order. There is always at least
      one: the empty text splits into one empty piece. */
  function Split(s: string): (parts: seq<string>)
    ensures |parts| >= 1
    ensures forall i :: 0 <= i < |parts| ==> '=' !in parts[i]
    ensures Join(parts) == s
    ensures |parts| == 1 <==> '=' !in s
  {
    if |s| == 0 then [""]
    else
      var rest := Split(s[1..]);
      assert s == [s[0]] + s[1..];
      if s[0] == '=' then [""] + rest
      else
        var parts := [[s[0]] + rest[0]] + rest[1..];
        assert parts[1..] == rest[1..];
        assert forall i :: 1 <= i < |parts| ==> parts[i] == rest[i];
        parts
  }

  /** `Split` undoes `Join` on pieces free of `=`: the two are inverse. */
  lemma {:induction false} SplitJoin(parts: seq<string>)
    requires |parts| >= 1
    requires forall i :: 0 <= i < |parts| ==> '=' !in parts[i]
    ensures Split(Join(parts)) == parts
    decreases |Join(parts)|, |parts|
  {
    var p := parts[0];
    if |p| > 0 {
      var shorter := [p[1..]] + parts[1..];
      assert shorter[1..] == parts[1..];
      assert Join(shorter) == Join(parts)[1..];
      SplitJoin(shorter);
      assert p == [p[0]] + p[1..];
    } else if |parts| > 1 {
      assert Join(parts) == "=" + Join(parts[1..]);
      assert Join(parts)[1..] == Join(parts[1..]);
      SplitJoin(parts[1..]);
      assert parts == [""] + parts[1..];
    }
  }

  /** `s` begins with `k=v`, followed by the end of `s` or by another `=`. */
  predicate SplitsAs(s: string, k: string, v: string) {
    var n := |k| + 1 + |v|;
    n <= |s| && s[..n] == k + "=" + v && (n == |s| || s[n] == '=')
  }

  /** `KvPair::from_str`. The first piece of the split always exists; a missing
      second piece, that is, a text without `=`, is the error. Pieces after the
      second are dropped. */
  function FromStr(s: string): (r: Result<KvPair, string>)
    ensures r.Err? <==> '=' !in s
    ensures r.Err? ==> r.error == "Failed to parse " + s
    ensures r.Ok? ==> '=' !in r.value.k && '=' !in r.value.v && SplitsAs(s, r.value.k, r.value.v)
  {
    var parts := Split(s);
    if |parts| < 2 then Err("Failed to parse " + s)
    else
      JoinSplitsAs(parts);
      Ok(KvPair(parts[0], parts[1]))
  }

  /** Joined pieces begin with the first two of them. */
  lemma JoinSplitsAs(parts: seq<string>)
    requires |parts| >= 2
    ensures SplitsAs(Join(parts), parts[0], parts[1])
  {
    var rest := if |parts| == 2 then "" else "=" + Join(parts[2..]);
    assert parts[1..][1..] == parts[2..];
    assert Join(parts[1..]) == parts[1] + rest;
    var head := parts[0] + "=" + parts[1];
    assert Join(parts) == head + rest;
    assert Join(parts)[..|head|] == head;
  }

  /** Where the fields of a `k=v` reading lie: the first `=` of `s` is the one
      after `k`, and the next one, if any, is the one after `v`. */
  lemma EqualsPositions(s: string, k: string, v: string)
    requires '=' !in k && '=' !in v && SplitsAs(s, k, v)
    ensures s[|k|] == '='
    ensures forall i :: 0 <= i < |k| ==> s[i] != '='
    ensures forall i :: |k| < i < |k| + 1 + |v| ==> s[i] != '='
  {
    var n := |k| + 1 + |v|;
    assert forall i :: 0 <= i < n ==> s[i] == s[..n][i] == (k + "=" + v)[i];
  }

  /** Two readings of a text as `k=v` with `=`-free fields are the same. */
  lemma SplitsAsUnique(s: string, k1: string, v1: string, k2: string, v2: string)
    requires '=' !in k1 && '=' !in v1 && '=' !in k2 && '=' !in v2
    requires SplitsAs(s, k1, v1) && SplitsAs(s, k2, v2)
    ensures k1 == k2 && v1 == v2
  {
    EqualsPositions(s, k1, v1);
    EqualsPositions(s, k2, v2);
    var n1, n2 := |k1| + 1 + |v1|, |k2| + 1 + |v2|;
    assert |k1| == |k2|;
    assert k1 == s[..n1][..|k1|] == s[..n2][..|k2|] == k2;
    assert n1 == n2;
    assert v1 == s[..n1][|k1| + 1..] == v2;
  }

  /** The key is the text before the first `=` and the value the text up to the
      second `=` or the end; whatever follows a second `=` is ignored. */
  lemma FromStrReadsFirstTwoFields(k: string, v: string, rest: string)
    requires '=' !in k && '=' !in v
    requires rest == "" || rest[0] == '='
    ensures FromStr(k + "=" + v + rest) == Ok(KvPair(k, v))
  {
    var s := k + "=" + v + rest;
    assert s[|k|] == '=';
    assert SplitsAs(s, k, v) by {
      assert s[..|k| + 1 + |v|] == k + "=" + v;
    }
    var r := FromStr(s);
    SplitsAsUnique(s, k, v, r.value.k, r.value.v);
  }

  /** `parse_kv_pair`, the argument parser clap calls: `from_str` with its error
      passed through. */
  function ParseKvPair(s: string): (r: Result<KvPair, string>)
    ensures r.Err? <==> '=' !in s
    ensures r.Err? ==> r.error == "Failed to parse " + s
    ensures r.Ok? ==> '=' !in r.value.k && '=' !in r.value.v && SplitsAs(s, r.value.k, r.value.v)
  {
    FromStr(s)
  }

  /** Text after a second `=` is dropped: `a=b=c` reads as `a` and `b`. */
  lemma SecondEqualsDropsRest()
    ensures FromStr("a=b=c") == Ok(KvPair("a", "b"))
  {
    assert "a" + "=" + "b" + "=c" == "a=b=c";
    FromStrReadsFirstTwoFields("a", "b", "=c");
  }

  /** Empty keys and values are accepted. */
  lemma LoneEqualsIsEmptyPair()
    ensures FromStr("=") == Ok(KvPair("", ""))
  {
    assert "" + "=" + "" + "" == "=";
    FromStrReadsFirstTwoFields("", "", "");
  }

  lemma NoEqualsFails()
    ensures FromStr("name") == Err("Failed to parse name")
  {
    assert '=' !in "name";
    assert "Failed to parse " + "name" == "Failed to parse name";
  }

  /** The body `post` sends: each pair inserted in argument order, so a later
      pair overwrites an earlier one with the same key. Its keys are exactly the
      keys of the pairs. */
  function BodyOf(pairs: seq<KvPair>): (body: map<string, string>)
    ensures body.Keys == set p | p in pairs :: p.k
  {
    if |pairs| == 0 then map[]
    else
      var n := |pairs| - 1;
      assert pairs == pairs[..n] + [pairs[n]];
      BodyOf(pairs[..n])[pairs[n].k := pairs[n].v]
  }

  /** A key holds the value of the last pair that has it. */
  lemma {:induction false} LastPairWins(pairs: seq<KvPair>, i: nat)
    requires i < |pairs| && LastWithKey(pairs, i)
    ensures pairs[i].k in BodyOf(pairs) && BodyOf(pairs)[pairs[i].k] == pairs[i].v
  {
    var n := |pairs| - 1;
    if i < n {
      var init := pairs[..n];
      assert init[i] == pairs[i];
      assert LastWithKey(init, i);
      LastPairWins(init, i);
      assert pairs[n].k != pairs[i].k;
    }
  }

  /** No pair after position `i` has the key of pair `i`. */
  predicate LastWithKey(pairs: seq<KvPair>, i: nat)
    requires i < |pairs|
  {
    forall j :: i < j < |pairs| ==> pairs[j].k != pairs[i].k
  }

  /** Appending a pair overwrites its key and leaves every other key as it was. */
  lemma LaterPairOverwrites(pairs: seq<KvPair>, p: KvPair)
    ensures BodyOf(pairs + [p]) == BodyOf(pairs)[p.k := p.v]
  {
    assert (pairs + [p])[..|pairs|] == pairs;
  }
}
