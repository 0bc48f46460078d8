/** Keys of interact: how fixed-string keys are found in a stream of input that arrives in
    pieces (exp_inter.c).

    Characters that belong to no key are passed through.  When the end of the buffer may be
    the beginning of a key, it is kept until more input decides.  What is passed through
    and which keys are matched does not depend on how the input was cut. */
module InteractKeys {
  import opened Chars

  /** Keys are not empty and hold no NUL. */
  predicate KeysOk(keys: seq<seq<byte>>) {
    forall k :: 0 <= k < |keys| ==> keys[k] != [] && NUL !in keys[k]
  }

  /** A key before k in the list is found whenever x is. */
  predicate Shadowed(keys: seq<seq<byte>>, k: nat, x: seq<byte>) {
    exists i :: 0 <= i < k && i < |keys| && keys[i] <= x
  }

  /** No key begins with one that comes later in the list, unless one before both is always
      found first.  Keys of which none begins with another are decided. */
  predicate Decided(keys: seq<seq<byte>>) {
    forall k, m :: 0 <= k < m < |keys| && keys[m] < keys[k] ==> Shadowed(keys, k, keys[m])
  }

  /** Comparing a key with the input: it ends at a place, the input was too short to tell, or
      they differ. */
  datatype Comparison = Hit(end: nat) | Short | Miss

  /** From character i of the key and place p of the input on; nulls in the input are skipped
      if asked for. */
  function Compare(rmNulls: bool, key: seq<byte>, i: nat, s: seq<byte>, p: nat): (r: Comparison)
    requires i <= |key| && p <= |s|
    ensures r.Hit? ==> p <= r.end <= |s| && (i < |key| ==> p < r.end)
    decreases |s| - p
  {
    if i == |key| then Hit(p)
    else if p == |s| then Short
    else if s[p] == key[i] then Compare(rmNulls, key, i + 1, s, p + 1)
    else if s[p] == NUL && rmNulls then Compare(rmNulls, key, i, s, p + 1)
    else Miss
  }

  /** The first key from j on that ends in the input. */
  function KeyAt(rmNulls: bool, keys: seq<seq<byte>>, s: seq<byte>, p: nat, j: nat): (r: Option<nat>)
    requires p <= |s| && j <= |keys|
    ensures r.Some? ==> j <= r.value < |keys| && Compare(rmNulls, keys[r.value], 0, s, p).Hit?
    decreases |keys| - j
  {
    if j == |keys| then None
    else if Compare(rmNulls, keys[j], 0, s, p).Hit? then Some(j)
    else KeyAt(rmNulls, keys, s, p, j + 1)
  }

  /** Some key from j on may end in input still to come. */
  predicate MayMatch(rmNulls: bool, keys: seq<seq<byte>>, s: seq<byte>, p: nat, j: nat)
    requires p <= |s| && j <= |keys|
    decreases |keys| - j
  {
    j < |keys| && (Compare(rmNulls, keys[j], 0, s, p).Short? || MayMatch(rmNulls, keys, s, p, j + 1))
  }

  // ----- what comparing finds -----

  /** The characters that are looked at. */
  function Visible(rmNulls: bool, x: seq<byte>): seq<byte> {
    if x == [] then [] else (if rmNulls && x[0] == NUL then [] else [x[0]]) + Visible(rmNulls, x[1..])
  }

  lemma {:induction false} AllVisible(rmNulls: bool, x: seq<byte>)
    requires !rmNulls || NUL !in x
    ensures Visible(rmNulls, x) == x
  {
    if x != [] {
      AllVisible(rmNulls, x[1..]);
      assert x == [x[0]] + x[1..] && x[0] in x;
    }
  }

  /** Exactly the nulls are not looked at, if they are to be skipped. */
  lemma {:induction false} VisibleParts(rmNulls: bool, x: seq<byte>, c: byte, y: seq<byte>)
    ensures Visible(rmNulls, x + [c] + y)
            == Visible(rmNulls, x) + (if rmNulls && c == NUL then [] else [c]) + Visible(rmNulls, y)
    decreases |x|
  {
    var all := x + [c] + y;
    if x == [] {
      assert all[0] == c && all[1..] == y;
    } else {
      assert all[0] == x[0] && all[1..] == x[1..] + [c] + y;
      VisibleParts(rmNulls, x[1..], c, y);
    }
  }

  lemma VisibleFirst(rmNulls: bool, s: seq<byte>, p: nat, q: nat)
    requires p < q <= |s|
    ensures Visible(rmNulls, s[p..q])
            == (if rmNulls && s[p] == NUL then [] else [s[p]]) + Visible(rmNulls, s[p + 1..q])
  {
    assert s[p..q][1..] == s[p + 1..q];
  }

  /** The key, from character i on, ends in the input if what is visible from p on begins with
      it, and may still end if what is visible is only a beginning of it. */
  ghost predicate Compared(rmNulls: bool, key: seq<byte>, i: nat, s: seq<byte>, p: nat, r: Comparison)
    requires i <= |key| && p <= |s|
  {
    var x := Visible(rmNulls, s[p..|s|]);
    && (r.Hit? <==> key[i..] <= x) && (r.Short? <==> x < key[i..])
    && (r.Hit? ==> p <= r.end <= |s| && Visible(rmNulls, s[p..r.end]) == key[i..]
                   && if i == |key| then r.end == p else p < r.end && s[r.end - 1] == key[|key| - 1])
  }

  lemma {:induction false} ComparedIs(rmNulls: bool, key: seq<byte>, i: nat, s: seq<byte>, p: nat)
    requires i <= |key| && p <= |s| && NUL !in key
    ensures Compared(rmNulls, key, i, s, p, Compare(rmNulls, key, i, s, p))
    decreases |s| - p
  {
    hide Compared;
    if i < |key| && p < |s| && (s[p] == key[i] || (s[p] == NUL && rmNulls)) {
      assert key[i] in key;
      var i' := if s[p] == key[i] then i + 1 else i;
      ComparedIs(rmNulls, key, i', s, p + 1);
      ComparedNext(rmNulls, key, i, s, p, Compare(rmNulls, key, i', s, p + 1));
    } else {
      ComparedNow(rmNulls, key, i, s, p);
    }
  }

  lemma ComparedNow(rmNulls: bool, key: seq<byte>, i: nat, s: seq<byte>, p: nat)
    requires i <= |key| && p <= |s|
    requires i == |key| || p == |s| || (s[p] != key[i] && (s[p] != NUL || !rmNulls))
    ensures Compared(rmNulls, key, i, s, p, Compare(rmNulls, key, i, s, p))
  {
    if i == |key| {
      assert key[i..] == [] && s[p..p] == [];
    } else if p == |s| {
      assert s[p..|s|] == [] && |key[i..]| > 0;
    } else {
      VisibleFirst(rmNulls, s, p, |s|);
      assert Visible(rmNulls, s[p..|s|])[0] != key[i..][0];
    }
  }

  lemma ComparedNext(rmNulls: bool, key: seq<byte>, i: nat, s: seq<byte>, p: nat, r: Comparison)
    requires i < |key| && p < |s| && NUL !in key
    requires s[p] == key[i] || (s[p] == NUL && rmNulls)
    requires Compared(rmNulls, key, if s[p] == key[i] then i + 1 else i, s, p + 1, r)
    ensures Compared(rmNulls, key, i, s, p, r)
  {
    hide Visible;
    assert key[i..] == [key[i]] + key[i + 1..] && key[i] in key;
    VisibleFirst(rmNulls, s, p, |s|);
    var x := Visible(rmNulls, s[p + 1..|s|]);
    assert [] + x == x;
    if r.Hit? {
      VisibleFirst(rmNulls, s, p, r.end);
      assert [] + Visible(rmNulls, s[p + 1..r.end]) == Visible(rmNulls, s[p + 1..r.end]);
    }
    FrontOf(s[p], key[i + 1..], Visible(rmNulls, s[p + 1..|s|]));
  }

  lemma CompareMeans(rmNulls: bool, key: seq<byte>, s: seq<byte>, p: nat)
    requires p <= |s| && NUL !in key
    ensures var r, x := Compare(rmNulls, key, 0, s, p), Visible(rmNulls, s[p..]);
            && (r.Hit? <==> key <= x) && (r.Short? <==> x < key)
            && (r.Hit? ==> Visible(rmNulls, s[p..r.end]) == key && (key != [] ==> s[r.end - 1] == key[|key| - 1]))
  {
    hide Compare, Visible;
    ComparedIs(rmNulls, key, 0, s, p);
    assert key[0..] == key && s[p..|s|] == s[p..];
  }

  lemma FrontOf(c: byte, x: seq<byte>, y: seq<byte>)
    ensures [c] + x <= [c] + y <==> x <= y
    ensures [c] + y < [c] + x <==> y < x
  {
    assert ([c] + x)[1..] == x && ([c] + y)[1..] == y;
  }

  /** The first key that begins what is visible from p on. */
  lemma {:induction false} KeyAtMeans(rmNulls: bool, keys: seq<seq<byte>>, s: seq<byte>, p: nat, j: nat)
    requires KeysOk(keys) && p <= |s| && j <= |keys|
    ensures var r, x := KeyAt(rmNulls, keys, s, p, j), Visible(rmNulls, s[p..]);
            if r.Some? then keys[r.value] <= x && forall k :: j <= k < r.value ==> !(keys[k] <= x)
            else forall k :: j <= k < |keys| ==> !(keys[k] <= x)
    decreases |keys| - j
  {
    hide Compare, Visible;
    if j < |keys| {
      CompareMeans(rmNulls, keys[j], s, p);
      KeyAtMeans(rmNulls, keys, s, p, j + 1);
    }
  }

  /** What is visible from p on is the beginning of some key, and not all of it. */
  ghost predicate BeginsKey(rmNulls: bool, keys: seq<seq<byte>>, s: seq<byte>, p: nat, j: nat)
    requires p <= |s|
  {
    exists k :: j <= k < |keys| && Visible(rmNulls, s[p..]) < keys[k]
  }

  lemma {:induction false} MayMatchMeans(rmNulls: bool, keys: seq<seq<byte>>, s: seq<byte>, p: nat, j: nat)
    requires KeysOk(keys) && p <= |s| && j <= |keys|
    ensures MayMatch(rmNulls, keys, s, p, j) <==> BeginsKey(rmNulls, keys, s, p, j)
    decreases |keys| - j
  {
    hide Compare, Visible;
    if j < |keys| {
      CompareMeans(rmNulls, keys[j], s, p);
      MayMatchMeans(rmNulls, keys, s, p, j + 1);
    }
  }

  // ----- what the input means -----

  datatype Out = Passed(c: byte) | Key(k: nat)

  /** What is passed through and matched, and what is undecided. */
  datatype Reading = Reading(outs: seq<Out>, rest: seq<byte>)

  function Read(rmNulls: bool, keys: seq<seq<byte>>, s: seq<byte>): Reading
    requires KeysOk(keys)
    decreases |s|
  {
    if s == [] then Reading([], [])
    else
      var k := KeyAt(rmNulls, keys, s, 0, 0);
      if k.Some? then
        var r := Read(rmNulls, keys, s[Compare(rmNulls, keys[k.value], 0, s, 0).end..]);
        Reading([Key(k.value)] + r.outs, r.rest)
      else if MayMatch(rmNulls, keys, s, 0, 0) then Reading([], s)
      else
        var r := Read(rmNulls, keys, s[1..]);
        Reading([Passed(s[0])] + r.outs, r.rest)
  }

  // ----- more input decides no more than it must -----

  lemma {:induction false} CompareMore(rmNulls: bool, key: seq<byte>, i: nat, s: seq<byte>, p: nat, t: seq<byte>)
    requires i <= |key| && p <= |s|
    ensures var r, r' := Compare(rmNulls, key, i, s, p), Compare(rmNulls, key, i, s + t, p);
            (r.Hit? ==> r' == r) && (r.Miss? ==> r'.Miss?) && (r'.Short? ==> r.Short?)
    decreases |s| - p
  {
    if i < |key| && p < |s| {
      if s[p] == key[i] {
        CompareMore(rmNulls, key, i + 1, s, p + 1, t);
      } else if s[p] == NUL && rmNulls {
        CompareMore(rmNulls, key, i, s, p + 1, t);
      }
    }
  }

  /** Two keys that end in the same input begin alike. */
  lemma {:induction false} HitsAgree(rmNulls: bool, k1: seq<byte>, k2: seq<byte>, i: nat, s: seq<byte>, p: nat)
    requires i <= |k1| <= |k2| && p <= |s| && k1[..i] == k2[..i] && NUL !in k1 && NUL !in k2
    requires Compare(rmNulls, k1, i, s, p).Hit? && Compare(rmNulls, k2, i, s, p).Hit?
    ensures k1 <= k2
    decreases |s| - p
  {
    if i == |k1| {
      assert k1[..i] == k1;
    } else if s[p] == k1[i] {
      assert s[p] == k2[i];
      assert k1[..i + 1] == k1[..i] + [k1[i]] && k2[..i + 1] == k2[..i] + [k2[i]];
      HitsAgree(rmNulls, k1, k2, i + 1, s, p + 1);
    } else {
      HitsAgree(rmNulls, k1, k2, i, s, p + 1);
    }
  }

  /** A key that begins one that ends in the input ends there too. */
  lemma {:induction false} PrefixHits(rmNulls: bool, k1: seq<byte>, k2: seq<byte>, i: nat, s: seq<byte>, p: nat)
    requires i <= |k1| && k1 <= k2 && p <= |s| && Compare(rmNulls, k2, i, s, p).Hit?
    ensures Compare(rmNulls, k1, i, s, p).Hit?
    decreases |s| - p
  {
    if i < |k1| {
      PrefixHits(rmNulls, k1, k2, if s[p] == k1[i] then i + 1 else i, s, p + 1);
    }
  }

  lemma {:induction false} FirstKey(rmNulls: bool, keys: seq<seq<byte>>, s: seq<byte>, p: nat, j: nat, m: nat)
    requires p <= |s| && j <= m < |keys| && Compare(rmNulls, keys[m], 0, s, p).Hit?
    ensures var r := KeyAt(rmNulls, keys, s, p, j); r.Some? && r.value <= m
    decreases |keys| - j
  {
    if !Compare(rmNulls, keys[j], 0, s, p).Hit? {
      FirstKey(rmNulls, keys, s, p, j + 1, m);
    }
  }

  /** A key found stays found when more input comes. */
  lemma KeyStays(rmNulls: bool, keys: seq<seq<byte>>, s: seq<byte>, p: nat, t: seq<byte>)
    requires KeysOk(keys) && Decided(keys) && p <= |s| && KeyAt(rmNulls, keys, s, p, 0).Some?
    ensures KeyAt(rmNulls, keys, s + t, p, 0) == KeyAt(rmNulls, keys, s, p, 0)
    ensures var k := KeyAt(rmNulls, keys, s, p, 0).value;
            Compare(rmNulls, keys[k], 0, s + t, p) == Compare(rmNulls, keys[k], 0, s, p)
  {
    hide Compare;
    var k := KeyAt(rmNulls, keys, s, p, 0).value;
    CompareMore(rmNulls, keys[k], 0, s, p, t);
    FirstKey(rmNulls, keys, s + t, p, 0, k);
    var m := KeyAt(rmNulls, keys, s + t, p, 0).value;
    if m < k {
      EarlierKey(rmNulls, keys, s, p, t, m, k);
    }
  }

  /** A key before the first one found in the input is not found when more comes. */
  lemma EarlierKey(rmNulls: bool, keys: seq<seq<byte>>, s: seq<byte>, p: nat, t: seq<byte>, m: nat, k: nat)
    requires KeysOk(keys) && Decided(keys) && p <= |s| && m < k && KeyAt(rmNulls, keys, s, p, 0) == Some(k)
    ensures !Compare(rmNulls, keys[m], 0, s + t, p).Hit?
  {
    hide Compare;
    if Compare(rmNulls, keys[m], 0, s + t, p).Hit? {
      NotEarlier(rmNulls, keys, s, p, k, m);
      CompareMore(rmNulls, keys[k], 0, s, p, t);
      if |keys[m]| <= |keys[k]| {
        HitsAgree(rmNulls, keys[m], keys[k], 0, s + t, p);
        PrefixHits(rmNulls, keys[m], keys[k], 0, s, p);
      } else {
        HitsAgree(rmNulls, keys[k], keys[m], 0, s + t, p);
        var i :| 0 <= i < m && keys[i] <= keys[k];
        NotEarlier(rmNulls, keys, s, p, k, i);
        PrefixHits(rmNulls, keys[i], keys[k], 0, s, p);
      }
    }
  }

  lemma NotEarlier(rmNulls: bool, keys: seq<seq<byte>>, s: seq<byte>, p: nat, k: nat, m: nat)
    requires p <= |s| && m < k && KeyAt(rmNulls, keys, s, p, 0) == Some(k)
    ensures !Compare(rmNulls, keys[m], 0, s, p).Hit?
  {
    hide Compare;
    if Compare(rmNulls, keys[m], 0, s, p).Hit? {
      FirstKey(rmNulls, keys, s, p, 0, m);
    }
  }

  /** Where no key is found or possible, more input does not change that. */
  lemma {:induction false} NoKeyStays(rmNulls: bool, keys: seq<seq<byte>>, s: seq<byte>, p: nat, t: seq<byte>, j: nat)
    requires p <= |s| && j <= |keys|
    requires KeyAt(rmNulls, keys, s, p, j).None? && !MayMatch(rmNulls, keys, s, p, j)
    ensures KeyAt(rmNulls, keys, s + t, p, j).None? && !MayMatch(rmNulls, keys, s + t, p, j)
    decreases |keys| - j
  {
    hide Compare;
    if j < |keys| {
      CompareMore(rmNulls, keys[j], 0, s, p, t);
      NoKeyStays(rmNulls, keys, s, p, t, j + 1);
    }
  }

  /** Reading s and then t, with what s left undecided in front, is reading both at once. */
  predicate PiecesAgree(rmNulls: bool, keys: seq<seq<byte>>, s: seq<byte>, t: seq<byte>)
    requires KeysOk(keys)
  {
    var r := Read(rmNulls, keys, s);
    var r' := Read(rmNulls, keys, r.rest + t);
    Read(rmNulls, keys, s + t) == Reading(r.outs + r'.outs, r'.rest)
  }

  /** What is read first. */
  lemma ReadFirst(rmNulls: bool, keys: seq<seq<byte>>, s: seq<byte>)
    requires KeysOk(keys) && s != []
    ensures var k := KeyAt(rmNulls, keys, s, 0, 0);
            if k.Some? then
              var end := Compare(rmNulls, keys[k.value], 0, s, 0).end;
              var r := Read(rmNulls, keys, s[end..]);
              Read(rmNulls, keys, s) == Reading([Key(k.value)] + r.outs, r.rest)
            else if MayMatch(rmNulls, keys, s, 0, 0) then Read(rmNulls, keys, s) == Reading([], s)
            else
              var r := Read(rmNulls, keys, s[1..]);
              Read(rmNulls, keys, s) == Reading([Passed(s[0])] + r.outs, r.rest)
  {
    hide Compare, MayMatch;
  }

  /** Reading in two pieces, the undecided end of the first put in front of the second, is
      reading the whole. */
  lemma {:induction false} ReadInPieces(rmNulls: bool, keys: seq<seq<byte>>, s: seq<byte>, t: seq<byte>)
    requires KeysOk(keys) && Decided(keys)
    ensures PiecesAgree(rmNulls, keys, s, t)
    decreases |s|
  {
    hide Decided, Compare, KeyAt, MayMatch, KeysOk, Read;
    if s == [] {
      ReadNone(rmNulls, keys);
      assert s + t == t && [] + t == t;
    } else {
      ReadFirst(rmNulls, keys, s);
      ReadFirst(rmNulls, keys, s + t);
      var k := KeyAt(rmNulls, keys, s, 0, 0);
      if k.Some? {
        var end := Compare(rmNulls, keys[k.value], 0, s, 0).end;
        KeyStays(rmNulls, keys, s, 0, t);
        KeyNotEmpty(rmNulls, keys, s, k.value);
        assert (s + t)[end..] == s[end..] + t;
        ReadInPieces(rmNulls, keys, s[end..], t);
      } else if !MayMatch(rmNulls, keys, s, 0, 0) {
        NoKeyStays(rmNulls, keys, s, 0, t, 0);
        assert (s + t)[1..] == s[1..] + t;
        ReadInPieces(rmNulls, keys, s[1..], t);
      }
    }
  }

  lemma KeyNotEmpty(rmNulls: bool, keys: seq<seq<byte>>, s: seq<byte>, k: nat)
    requires KeysOk(keys) && k < |keys| && Compare(rmNulls, keys[k], 0, s, 0).Hit?
    ensures 0 < Compare(rmNulls, keys[k], 0, s, 0).end <= |s|
  {}

  function Concat(chunks: seq<seq<byte>>): seq<byte> {
    if chunks == [] then [] else chunks[0] + Concat(chunks[1..])
  }

  /** Reading chunk after chunk, rest being what was undecided before. */
  function ReadChunks(rmNulls: bool, keys: seq<seq<byte>>, rest: seq<byte>, chunks: seq<seq<byte>>): Reading
    requires KeysOk(keys)
    decreases |chunks|
  {
    if chunks == [] then Reading([], rest)
    else
      var r := Read(rmNulls, keys, rest + chunks[0]);
      var r' := ReadChunks(rmNulls, keys, r.rest, chunks[1..]);
      Reading(r.outs + r'.outs, r'.rest)
  }

  /** Undecided input stays undecided. */
  lemma {:induction false} RestIsRest(rmNulls: bool, keys: seq<seq<byte>>, s: seq<byte>)
    requires KeysOk(keys)
    ensures var r := Read(rmNulls, keys, s); Read(rmNulls, keys, r.rest) == Reading([], r.rest)
    decreases |s|
  {
    hide Compare, MayMatch, KeysOk;
    if s != [] {
      var k := KeyAt(rmNulls, keys, s, 0, 0);
      if k.Some? {
        KeyNotEmpty(rmNulls, keys, s, k.value);
        RestIsRest(rmNulls, keys, s[Compare(rmNulls, keys[k.value], 0, s, 0).end..]);
      } else if !MayMatch(rmNulls, keys, s, 0, 0) {
        RestIsRest(rmNulls, keys, s[1..]);
      }
    }
  }

  /** Nothing is withheld that could not be the beginning of a key. */
  lemma {:induction false} RestBeginsKey(rmNulls: bool, keys: seq<seq<byte>>, s: seq<byte>)
    requires KeysOk(keys)
    ensures var rest := Read(rmNulls, keys, s).rest;
            rest == [] || (BeginsKey(rmNulls, keys, rest, 0, 0)
                           && forall k :: 0 <= k < |keys| ==> !(keys[k] <= Visible(rmNulls, rest)))
    decreases |s|
  {
    hide Compare, MayMatch, KeysOk, Visible, BeginsKey;
    if s != [] {
      var k := KeyAt(rmNulls, keys, s, 0, 0);
      assert s[0..] == s;
      KeyAtMeans(rmNulls, keys, s, 0, 0);
      MayMatchMeans(rmNulls, keys, s, 0, 0);
      if k.Some? {
        KeyNotEmpty(rmNulls, keys, s, k.value);
        RestBeginsKey(rmNulls, keys, s[Compare(rmNulls, keys[k.value], 0, s, 0).end..]);
      } else if !MayMatch(rmNulls, keys, s, 0, 0) {
        RestBeginsKey(rmNulls, keys, s[1..]);
      }
    }
  }

  /** However the input is cut, what is passed through, what is matched and what is left
      undecided is the same. */
  lemma {:induction false} ChunksDoNotMatter(rmNulls: bool, keys: seq<seq<byte>>, rest: seq<byte>,
                                             chunks: seq<seq<byte>>)
    requires KeysOk(keys) && Decided(keys) && Read(rmNulls, keys, rest) == Reading([], rest)
    ensures ReadChunks(rmNulls, keys, rest, chunks) == Read(rmNulls, keys, rest + Concat(chunks))
    decreases |chunks|
  {
    hide Read, KeysOk, Decided;
    if chunks == [] {
      assert rest + Concat(chunks) == rest;
    } else {
      var s := rest + chunks[0];
      var r := Read(rmNulls, keys, s);
      RestIsRest(rmNulls, keys, s);
      ChunksDoNotMatter(rmNulls, keys, r.rest, chunks[1..]);
      ReadInPieces(rmNulls, keys, s, Concat(chunks[1..]));
      assert rest + Concat(chunks) == s + Concat(chunks[1..]);
    }
  }

  // ----- for which keys this holds -----

  /** A key that is a beginning of the input ends in it; only such keys do, if the input holds
      no NUL. */
  lemma {:induction false} CompareIsPrefix(rmNulls: bool, key: seq<byte>, i: nat, s: seq<byte>)
    requires i <= |key| && i <= |s| && key[..i] == s[..i] && NUL !in s
    ensures Compare(rmNulls, key, i, s, i).Hit? <==> key <= s
    decreases |s| - i
  {
    if i == |key| {
      assert key[..i] == key;
    } else if i < |s| {
      if s[i] == key[i] {
        assert key[..i + 1] == key[..i] + [key[i]] && s[..i + 1] == s[..i] + [s[i]];
        CompareIsPrefix(rmNulls, key, i + 1, s);
      } else {
        assert s[i] in s;
      }
    }
  }

  lemma FirstRead(rmNulls: bool, keys: seq<seq<byte>>, s: seq<byte>, m: nat) returns (k: nat)
    requires KeysOk(keys) && s != [] && NUL !in s && m < |keys| && keys[m] <= s
    ensures k <= m && keys[k] <= s
    ensures var outs := Read(rmNulls, keys, s).outs; outs != [] && outs[0] == Key(k)
  {
    hide Compare, Read;
    CompareIsPrefix(rmNulls, keys[m], 0, s);
    FirstKey(rmNulls, keys, s, 0, 0, m);
    ReadFirst(rmNulls, keys, s);
    k := KeyAt(rmNulls, keys, s, 0, 0).value;
    CompareIsPrefix(rmNulls, keys[k], 0, s);
  }

  /** If a later key begins an earlier one and nothing before both does, then reading the
      earlier one in two pieces finds another key than reading it at once. */
  lemma UndecidedDependsOnCuts(rmNulls: bool, keys: seq<seq<byte>>, k: nat, m: nat)
    requires KeysOk(keys) && k < m < |keys| && keys[m] < keys[k] && !Shadowed(keys, k, keys[m])
    ensures !PiecesAgree(rmNulls, keys, keys[m], keys[k][|keys[m]|..])
  {
    hide Read;
    var s, t := keys[m], keys[k][|keys[m]|..];
    assert s + t == keys[k];
    var x := FirstRead(rmNulls, keys, s + t, k);
    var y := FirstRead(rmNulls, keys, s, m);
    assert y > k;
    var r := Read(rmNulls, keys, s);
    var r' := Read(rmNulls, keys, r.rest + t);
    assert (r.outs + r'.outs)[0] == Key(y);
  }

  /** Cuts do not matter exactly for keys that are decided. */
  lemma DecidedExactly(rmNulls: bool, keys: seq<seq<byte>>)
    requires KeysOk(keys)
    ensures Decided(keys) <==> forall s: seq<byte>, t: seq<byte> :: PiecesAgree(rmNulls, keys, s, t)
  {
    hide Read;
    if Decided(keys) {
      forall s: seq<byte>, t: seq<byte> ensures PiecesAgree(rmNulls, keys, s, t) {
        ReadInPieces(rmNulls, keys, s, t);
      }
    } else {
      var k, m :| 0 <= k < m < |keys| && keys[m] < keys[k] && !Shadowed(keys, k, keys[m]);
      UndecidedDependsOnCuts(rmNulls, keys, k, m);
    }
  }

  // ----- one look at the buffer (intMatch) -----

  /** A key, found or possible after `skip` characters, or nothing in the whole buffer. */
  datatype Found = Match(skip: nat, k: nat, len: nat) | CanMatch(skip: nat) | CantMatch

  function Search(rmNulls: bool, keys: seq<seq<byte>>, s: seq<byte>, p: nat): Found
    requires p <= |s|
    decreases |s| - p
  {
    if p == |s| then CantMatch
    else
      var k := KeyAt(rmNulls, keys, s, p, 0);
      if k.Some? then Match(p, k.value, Compare(rmNulls, keys[k.value], 0, s, p).end - p)
      else if MayMatch(rmNulls, keys, s, p, 0) then CanMatch(p)
      else Search(rmNulls, keys, s, p + 1)
  }

  /** No key ends or may end at p. */
  ghost predicate NoKeyAt(rmNulls: bool, keys: seq<seq<byte>>, s: seq<byte>, p: nat)
    requires p <= |s|
  {
    forall k :: 0 <= k < |keys| ==>
      !(keys[k] <= Visible(rmNulls, s[p..])) && !(Visible(rmNulls, s[p..]) < keys[k])
  }

  /** The first place from p on where a key ends or may end: the first key that ends there, or
      that there is none but the beginning of one. */
  ghost predicate IsFound(rmNulls: bool, keys: seq<seq<byte>>, s: seq<byte>, p: nat, f: Found) {
    var skip := if f.CantMatch? then |s| else f.skip;
    && p <= skip <= |s| && (forall q :: p <= q < skip ==> NoKeyAt(rmNulls, keys, s, q))
    && match f
       case Match(_, k, len) =>
         && len > 0 && skip + len <= |s| && k < |keys|
         && Visible(rmNulls, s[skip..skip + len]) == keys[k] != [] && s[skip + len - 1] == keys[k][|keys[k]| - 1]
         && forall m :: 0 <= m < k ==> !(keys[m] <= Visible(rmNulls, s[skip..]))
       case CanMatch(_) =>
         && skip < |s| && BeginsKey(rmNulls, keys, s, skip, 0)
         && forall k :: 0 <= k < |keys| ==> !(keys[k] <= Visible(rmNulls, s[skip..]))
       case CantMatch => true
  }

  lemma {:induction false} SearchMeans(rmNulls: bool, keys: seq<seq<byte>>, s: seq<byte>, p: nat)
    requires KeysOk(keys) && p <= |s|
    ensures IsFound(rmNulls, keys, s, p, Search(rmNulls, keys, s, p))
    decreases |s| - p
  {
    hide Compare, MayMatch, Visible, KeyAt;
    if p < |s| {
      KeyAtMeans(rmNulls, keys, s, p, 0);
      MayMatchMeans(rmNulls, keys, s, p, 0);
      var k := KeyAt(rmNulls, keys, s, p, 0);
      if k.Some? {
        CompareMeans(rmNulls, keys[k.value], s, p);
      } else if !MayMatch(rmNulls, keys, s, p, 0) {
        SearchMeans(rmNulls, keys, s, p + 1);
      }
    }
  }

  /** Comparing one key at one place. */
  method CompareKey(rmNulls: bool, key: seq<byte>, s: seq<byte>, start: nat) returns (r: Comparison)
    requires start <= |s|
    ensures r == Compare(rmNulls, key, 0, s, start)
    ensures NUL !in key ==> (r.Hit? <==> key <= Visible(rmNulls, s[start..]))
                            && (r.Short? <==> Visible(rmNulls, s[start..]) < key)
  {
    hide Visible;
    if NUL !in key {
      CompareMeans(rmNulls, key, s, start);
    }
    var p, ks := start, 0;
    while true
      invariant start <= p <= |s| && 0 <= ks <= |key|
      invariant Compare(rmNulls, key, 0, s, start) == Compare(rmNulls, key, ks, s, p)
      decreases |s| - p
    {
      if ks == |key| {
        return Hit(p);
      }
      if p == |s| {
        return Short;
      }
      if s[p] == key[ks] {
        ks := ks + 1;
      } else if !(s[p] == NUL && rmNulls) {
        return Miss;
      }
      p := p + 1;
    }
  }

  method IntMatch(rmNulls: bool, keys: seq<seq<byte>>, s: seq<byte>) returns (r: Found)
    ensures r == Search(rmNulls, keys, s, 0)
    ensures KeysOk(keys) ==> IsFound(rmNulls, keys, s, 0, r)
  {
    hide Compare, IsFound, KeysOk, Visible;
    if KeysOk(keys) { SearchMeans(rmNulls, keys, s, 0); }
    if |keys| == 0 {
      NothingFound(rmNulls, keys, s, 0);
      return CantMatch;
    }
    var kmMatch := false;
    var start := 0;
    while start < |s|
      invariant 0 <= start <= |s| && (kmMatch ==> start > 0)
      invariant Search(rmNulls, keys, s, 0) == if kmMatch then CanMatch(start - 1) else Search(rmNulls, keys, s, start)
    {
      if kmMatch {
        break;
      }
      var km := 0;
      while km < |keys|
        invariant 0 <= km <= |keys| && KeyAt(rmNulls, keys, s, start, 0) == KeyAt(rmNulls, keys, s, start, km)
        invariant MayMatch(rmNulls, keys, s, start, 0) == (kmMatch || MayMatch(rmNulls, keys, s, start, km))
      {
        var c := CompareKey(rmNulls, keys[km], s, start);
        if c.Hit? {
          return Match(start, km, c.end - start);
        }
        if c.Short? {
          kmMatch := true;
        }
        km := km + 1;
      }
      start := start + 1;
    }
    if kmMatch {
      return CanMatch(start - 1);
    }
    r := CantMatch;
  }

  lemma {:induction false} NothingFound(rmNulls: bool, keys: seq<seq<byte>>, s: seq<byte>, p: nat)
    requires keys == [] && p <= |s|
    ensures Search(rmNulls, keys, s, p) == CantMatch
    decreases |s| - p
  {
    if p < |s| {
      NothingFound(rmNulls, keys, s, p + 1);
    }
  }

  function Passes(x: seq<byte>): seq<Out> {
    if x == [] then [] else [Passed(x[0])] + Passes(x[1..])
  }

  lemma {:induction false} SearchInside(rmNulls: bool, keys: seq<seq<byte>>, s: seq<byte>, p: nat)
    requires KeysOk(keys) && p <= |s|
    ensures match Search(rmNulls, keys, s, p)
            case Match(skip, k, len) => p <= skip && skip + len <= |s| && len > 0
            case CanMatch(skip) => p <= skip < |s|
            case CantMatch => true
    decreases |s| - p
  {
    hide MayMatch;
    if p < |s| && KeyAt(rmNulls, keys, s, p, 0).None? && !MayMatch(rmNulls, keys, s, p, 0) {
      SearchInside(rmNulls, keys, s, p + 1);
    }
  }

  lemma {:induction false} CompareShift(rmNulls: bool, key: seq<byte>, i: nat, s: seq<byte>, q: nat, p: nat)
    requires i <= |key| && q + p <= |s|
    ensures var r, r' := Compare(rmNulls, key, i, s[q..], p), Compare(rmNulls, key, i, s, q + p);
            r' == if r.Hit? then Hit(q + r.end) else r
    decreases |s| - p
  {
    if i < |key| && q + p < |s| {
      assert s[q..][p] == s[q + p];
      if s[q + p] == key[i] {
        CompareShift(rmNulls, key, i + 1, s, q, p + 1);
      } else if s[q + p] == NUL && rmNulls {
        CompareShift(rmNulls, key, i, s, q, p + 1);
      }
    }
  }

  lemma {:induction false} KeyShift(rmNulls: bool, keys: seq<seq<byte>>, s: seq<byte>, q: nat, j: nat)
    requires q <= |s| && j <= |keys|
    ensures KeyAt(rmNulls, keys, s[q..], 0, j) == KeyAt(rmNulls, keys, s, q, j)
    ensures MayMatch(rmNulls, keys, s[q..], 0, j) == MayMatch(rmNulls, keys, s, q, j)
    decreases |keys| - j
  {
    hide Compare;
    if j < |keys| {
      CompareShift(rmNulls, keys[j], 0, s, q, 0);
      KeyShift(rmNulls, keys, s, q, j + 1);
    }
  }

  /** One look at the buffer, from p on, is a first part of reading it. */
  lemma {:induction false} SearchReads(rmNulls: bool, keys: seq<seq<byte>>, s: seq<byte>, p: nat)
    requires KeysOk(keys) && p <= |s|
    ensures var r := Read(rmNulls, keys, s[p..]);
            match Search(rmNulls, keys, s, p)
            case Match(skip, k, len) =>
              p <= skip && skip + len <= |s| &&
              var r' := Read(rmNulls, keys, s[skip + len..]);
              r == Reading(Passes(s[p..skip]) + [Key(k)] + r'.outs, r'.rest)
            case CanMatch(skip) => p <= skip <= |s| && r == Reading(Passes(s[p..skip]), s[skip..])
            case CantMatch => r == Reading(Passes(s[p..]), [])
    decreases |s| - p
  {
    hide Compare, KeyAt, MayMatch, KeysOk, Read, Passes;
    SearchInside(rmNulls, keys, s, p);
    PassesNone();
    ReadNone(rmNulls, keys);
    if p == |s| {
      assert s[p..] == [];
    } else {
      ReadFirst(rmNulls, keys, s[p..]);
      KeyShift(rmNulls, keys, s, p, 0);
      var k := KeyAt(rmNulls, keys, s, p, 0);
      if k.Some? {
        CompareShift(rmNulls, keys[k.value], 0, s, p, 0);
        var end := Compare(rmNulls, keys[k.value], 0, s, p).end;
        assert s[p..][end - p..] == s[end..];
        assert s[p..p] == [];
        assert [] + [Key(k.value)] == [Key(k.value)];
      } else if MayMatch(rmNulls, keys, s, p, 0) {
        assert s[p..p] == [];
      } else {
        assert s[p..][1..] == s[p + 1..];
        SearchReads(rmNulls, keys, s, p + 1);
        PassFirst(s, p, Search(rmNulls, keys, s, p + 1));
      }
    }
  }

  lemma PassFirst(s: seq<byte>, p: nat, f: Found)
    requires p < |s| && (f.Match? || f.CanMatch? ==> p + 1 <= f.skip <= |s|)
    ensures Passes(s[p..]) == [Passed(s[p])] + Passes(s[p + 1..])
    ensures f.Match? || f.CanMatch? ==> Passes(s[p..f.skip]) == [Passed(s[p])] + Passes(s[p + 1..f.skip])
  {
    assert s[p..][1..] == s[p + 1..];
    if f.Match? || f.CanMatch? {
      assert s[p..f.skip][1..] == s[p + 1..f.skip];
    }
  }

  // ----- the interact loop -----

  /** The input of one spawned process while interact runs. */
  class Input {
    const keys: seq<seq<byte>>
    const rmNulls: bool
    var buffer: seq<byte>
    var printed: int
    var forceRead: bool
    /** Characters sent on and keys acted on, in order. */
    var sent: seq<Out>
    ghost var stream: seq<byte>

    /** What was sent, and what reading the buffer would send, is what reading everything that
        came in sends. */
    ghost predicate Valid()
      reads this
    {
      KeysOk(keys) && Decided(keys) && printed == 0
      && var r := Read(rmNulls, keys, buffer);
         Read(rmNulls, keys, stream) == Reading(sent + r.outs, r.rest)
    }

    constructor (ks: seq<seq<byte>>, rm: bool)
      requires KeysOk(ks) && Decided(ks)
      ensures Valid() && keys == ks && rmNulls == rm && stream == [] && sent == [] && buffer == []
    {
      keys, rmNulls := ks, rm;
      buffer, printed, forceRead, sent, stream := [], 0, false, [], [];
    }

    /** More characters arrive. */
    method Arrive(chunk: seq<byte>)
      requires Valid()
      modifies this`buffer, this`stream
      ensures Valid() && stream == old(stream) + chunk && buffer == old(buffer) + chunk
    {
      hide Read, KeysOk, Decided;
      ReadInPieces(rmNulls, keys, stream, chunk);
      ReadInPieces(rmNulls, keys, buffer, chunk);
      RestIsRest(rmNulls, keys, buffer);
      buffer := buffer + chunk;
      stream := stream + chunk;
    }

    /** Sends the characters from `printed` up to `upTo`. */
    method Send(upTo: nat)
      requires upTo <= |buffer| && printed == 0
      modifies this`sent, this`printed
      ensures sent == old(sent) + Passes(buffer[..upTo]) && printed == upTo
    {
      hide Passes;
      PassesNone();
      assert buffer[..0] == [];
      while printed < upTo
        invariant 0 <= printed <= upTo && sent == old(sent) + Passes(buffer[..printed])
      {
        PassesLast(buffer, printed);
        sent := sent + [Passed(buffer[printed])];
        printed := printed + 1;
      }
    }

    /** One round of the loop on what is buffered: the next event waits for new input exactly
        if the round ended in an undecided key. */
    method Round()
      requires Valid()
      modifies this`buffer, this`printed, this`forceRead, this`sent
      ensures Valid() && stream == old(stream)
      ensures var f := Search(rmNulls, keys, old(buffer), 0);
              && forceRead == f.CanMatch?
              && (!f.Match? ==> Read(rmNulls, keys, buffer) == Reading([], buffer))
              && (f.Match? ==> |buffer| < |old(buffer)|) && (f.CanMatch? ==> |buffer| <= |old(buffer)|)
              && (f.CantMatch? ==> buffer == [])
    {
      hide Read, KeysOk, Decided, Search, Passes, IsFound;
      SearchReads(rmNulls, keys, buffer, 0);
      SearchInside(rmNulls, keys, buffer, 0);
      RestIsRest(rmNulls, keys, buffer);
      assert buffer[0..] == buffer;
      var rc := IntMatch(rmNulls, keys, buffer);
      var skip := match rc case Match(n, _, _) => n case CanMatch(n) => n case CantMatch => |buffer|;
      assert buffer[0..skip] == buffer[..skip] && (skip == |buffer| ==> buffer[..skip] == buffer);
      var upTo := skip;
      if upTo > printed {
        Send(upTo);
      } else {
        PassesNone();
      }
      if rc.Match? {
        sent := sent + [Key(rc.k)];
        skip := skip + rc.len;
      }
      buffer := buffer[skip..];
      printed := printed - skip;
      if printed < 0 {
        printed := 0;
      }
      forceRead := rc.CanMatch?;
      ReadNone(rmNulls, keys);
    }

    /** Rounds go on until the buffer is empty or new input is needed. */
    method Drain()
      requires Valid()
      modifies this`buffer, this`printed, this`forceRead, this`sent
      ensures Valid() && stream == old(stream)
      ensures Read(rmNulls, keys, stream) == Reading(sent, buffer)
      ensures buffer == [] || BeginsKey(rmNulls, keys, buffer, 0, 0)
    {
      hide Read, KeysOk, Decided, Search, BeginsKey, Visible;
      RestBeginsKey(rmNulls, keys, stream);
      forceRead := false;
      ReadNone(rmNulls, keys);
      while |buffer| > 0 && !forceRead
        invariant Valid() && stream == old(stream)
        invariant |buffer| == 0 || forceRead ==> Read(rmNulls, keys, buffer) == Reading([], buffer)
        decreases |buffer|, !forceRead
      {
        Round();
      }
    }
  }

  lemma PassesNone()
    ensures Passes([]) == []
  {}

  lemma {:induction false} PassesJoin(x: seq<byte>, y: seq<byte>)
    ensures Passes(x + y) == Passes(x) + Passes(y)
    decreases |x|
  {
    if x == [] {
      assert x + y == y;
    } else {
      assert (x + y)[1..] == x[1..] + y;
      PassesJoin(x[1..], y);
    }
  }

  lemma PassesLast(x: seq<byte>, n: nat)
    requires n < |x|
    ensures Passes(x[..n + 1]) == Passes(x[..n]) + [Passed(x[n])]
  {
    assert x[..n + 1] == x[..n] + [x[n]];
    PassesJoin(x[..n], [x[n]]);
    assert [x[n]][1..] == [];
  }

  lemma ReadNone(rmNulls: bool, keys: seq<seq<byte>>)
    requires KeysOk(keys)
    ensures Read(rmNulls, keys, []) == Reading([], [])
  {}
}
