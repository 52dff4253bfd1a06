/**
 * The front end's HTTP client (Frontend/src/services/api.ts): the recursive
 * key-case rewrites applied to every JSON body, the request and response
 * interceptors that apply them, and the bodies `renewMembership` and
 * `addSeats` send, followed to the back-end routes that read them.
 *
 * JSON values are a datatype; an object is the sequence of its members in
 * insertion order. Numbers are integers.
 */
module ApiClient {
  import opened Common
  import Students
  import Seats

  datatype Json =
    | JNull
    | JBool(b: bool)
    | JNum(n: int)
    | JStr(s: string)
    | JArr(items: seq<Json>)
    | JObj(members: seq<Member>)

  datatype Member = Member(key: string, value: Json)

  // ---------------------------------------------------------------------------
  // The two key rewrites.

  predicate NoUpper(k: string) {
    forall i :: 0 <= i < |k| ==> !IsUpper(k[i])
  }

  /** No `_` in `k` is directly followed by a lower-case letter. */
  predicate NoSnakeJoint(k: string) {
    forall i :: 0 <= i < |k| - 1 ==> !(k[i] == '_' && IsLower(k[i + 1]))
  }

  /** `key.replace(/_([a-z])/g, (_, letter) => letter.toUpperCase())`: the
      pattern is matched left to right, and the search resumes after each
      match. The result never contains another match. */
  function CamelKey(k: string): (r: string)
    ensures |r| <= |k|
    ensures |k| > 0 ==> |r| > 0 && (r[0] == k[0] || (k[0] == '_' && IsUpper(r[0])))
    ensures NoSnakeJoint(r)
    decreases |k|
  {
    if |k| == 0 then ""
    else if |k| >= 2 && k[0] == '_' && IsLower(k[1]) then [ToUpper(k[1])] + CamelKey(k[2..])
    else [k[0]] + CamelKey(k[1..])
  }

  /** `key.replace(/([A-Z])/g, '_$1')`. */
  function Underscored(k: string): string {
    if |k| == 0 then "" else (if IsUpper(k[0]) then ['_', k[0]] else [k[0]]) + Underscored(k[1..])
  }

  /** `key.replace(/([A-Z])/g, '_$1').toLowerCase()`. */
  function SnakeKey(k: string): (r: string)
    ensures NoUpper(r)
  {
    Lower(Underscored(k))
  }

  /** What the snake rewrite makes of one character. */
  function SnakeChar(c: char): string {
    if IsUpper(c) then ['_', ToLower(c)] else [c]
  }

  /** The snake rewrite works character by character. */
  lemma SnakeKeyCons(k: string)
    requires |k| > 0
    ensures SnakeKey(k) == SnakeChar(k[0]) + SnakeKey(k[1..])
  {
    var head := if IsUpper(k[0]) then ['_', k[0]] else [k[0]];
    assert Underscored(k) == head + Underscored(k[1..]);
    assert Lower(head + Underscored(k[1..])) == Lower(head) + Lower(Underscored(k[1..]));
  }

  lemma {:induction false} SnakeKeyAppend(a: string, b: string)
    ensures SnakeKey(a + b) == SnakeKey(a) + SnakeKey(b)
    decreases |a|
  {
    if a == [] {
      assert a + b == b;
    } else {
      var c := SnakeChar(a[0]);
      assert (a + b)[0] == a[0] && (a + b)[1..] == a[1..] + b;
      SnakeKeyCons(a + b);
      assert SnakeKey(a + b) == c + SnakeKey(a[1..] + b);
      SnakeKeyAppend(a[1..], b);
      SnakeKeyCons(a);
      assert c + (SnakeKey(a[1..]) + SnakeKey(b)) == (c + SnakeKey(a[1..])) + SnakeKey(b);
    }
  }

  /** A key without upper-case letters is its own snake form. */
  lemma {:induction false} SnakeOfNoUpper(k: string)
    requires NoUpper(k)
    ensures SnakeKey(k) == k
    decreases |k|
  {
    if |k| > 0 {
      SnakeKeyCons(k);
      SnakeOfNoUpper(k[1..]);
      assert k == [k[0]] + k[1..];
    }
  }

  /** A key without `_` before a lower-case letter is its own camel form. */
  lemma {:induction false} CamelOfNoSnakeJoint(k: string)
    requires NoSnakeJoint(k)
    ensures CamelKey(k) == k
    decreases |k|
  {
    if |k| > 0 {
      CamelOfNoSnakeJoint(k[1..]);
      assert k == [k[0]] + k[1..];
    }
  }

  /** Each rewrite is idempotent. */
  lemma KeyRewritesIdempotent(k: string)
    ensures SnakeKey(SnakeKey(k)) == SnakeKey(k)
    ensures CamelKey(CamelKey(k)) == CamelKey(k)
  {
    SnakeOfNoUpper(SnakeKey(k));
    CamelOfNoSnakeJoint(CamelKey(k));
  }

  /** A key without upper-case letters, as the back end sends them, survives
      camel then snake; so snake, camel, snake restores it. */
  lemma {:induction false} SnakeOfCamel(k: string)
    requires NoUpper(k)
    ensures SnakeKey(CamelKey(k)) == k
    ensures SnakeKey(CamelKey(SnakeKey(k))) == k
    decreases |k|
  {
    if |k| == 0 {
      assert CamelKey(k) == "";
    } else if |k| >= 2 && k[0] == '_' && IsLower(k[1]) {
      SnakeOfCamel(k[2..]);
      assert CamelKey(k) == [ToUpper(k[1])] + CamelKey(k[2..]);
      SnakeCamelHumpStep(k, CamelKey(k), CamelKey(k[2..]));
    } else {
      SnakeOfCamel(k[1..]);
      assert CamelKey(k) == [k[0]] + CamelKey(k[1..]);
      SnakeCamelPlainStep(k, CamelKey(k), CamelKey(k[1..]));
    }
    SnakeOfNoUpper(k);
  }

  /** One step of SnakeOfCamel: `_x` became `X`, which snakes back to `_x`. */
  lemma SnakeCamelHumpStep(k: string, c: string, rest: string)
    requires |k| >= 2 && k[0] == '_' && IsLower(k[1])
    requires c == [ToUpper(k[1])] + rest && SnakeKey(rest) == k[2..]
    ensures SnakeKey(c) == k
  {
    assert c[0] == ToUpper(k[1]) && c[1..] == rest;
    SnakeKeyCons(c);
    UpperThenLower(k[1]);
    assert k == ['_', k[1]] + k[2..];
  }

  /** One step of SnakeOfCamel: a character that is not upper case stays. */
  lemma SnakeCamelPlainStep(k: string, c: string, rest: string)
    requires |k| > 0 && !IsUpper(k[0])
    requires c == [k[0]] + rest && SnakeKey(rest) == k[1..]
    ensures SnakeKey(c) == k
  {
    assert c[0] == k[0] && c[1..] == rest;
    SnakeKeyCons(c);
    assert k == [k[0]] + k[1..];
  }

  /** A lower-case letter made upper-case snakes back to `_` and itself. */
  lemma UpperThenLower(x: char)
    requires IsLower(x)
    ensures SnakeChar(ToUpper(x)) == ['_', x]
  {
  }

  /** A key without `_` before a lower-case letter survives snake then camel;
      so camel, snake, camel restores it. */
  lemma {:induction false} CamelOfSnake(k: string)
    requires NoSnakeJoint(k)
    ensures CamelKey(SnakeKey(k)) == k
    ensures CamelKey(SnakeKey(CamelKey(k))) == k
    decreases |k|
  {
    if |k| > 0 {
      assert NoSnakeJoint(k[1..]) by {
        forall i | 0 <= i < |k[1..]| - 1 ensures !(k[1..][i] == '_' && IsLower(k[1..][i + 1])) {
          assert k[1..][i] == k[i + 1] && k[1..][i + 1] == k[i + 2];
        }
      }
      CamelOfSnake(k[1..]);
      CamelSnakeStep(k);
    }
    CamelOfNoSnakeJoint(k);
  }

  /** The camel rewrite undoes the snake rewrite of the first character. */
  lemma CamelSnakeStep(k: string)
    requires |k| > 0 && NoSnakeJoint(k)
    requires CamelKey(SnakeKey(k[1..])) == k[1..]
    ensures CamelKey(SnakeKey(k)) == k
  {
    SnakeKeyCons(k);
    var rest := SnakeKey(k[1..]);
    var s := SnakeKey(k);
    if IsUpper(k[0]) {
      assert s == ['_', ToLower(k[0])] + rest;
      assert s[2..] == rest;
      assert CamelKey(s) == [ToUpper(ToLower(k[0]))] + CamelKey(rest);
    } else {
      assert s == [k[0]] + rest;
      assert s[1..] == rest;
      if k[0] == '_' && |k| > 1 {
        SnakeKeyCons(k[1..]);
        assert !IsLower(k[1]);
        assert !IsLower(s[1]);
      }
      assert CamelKey(s) == [k[0]] + CamelKey(rest);
    }
    assert k == [k[0]] + k[1..];
  }

  /** A camel-case key with one hump: the hump becomes `_` and the lower-case
      letter. */
  lemma SnakeOfOneHump(a: string, c: char, b: string)
    requires NoUpper(a) && IsUpper(c) && NoUpper(b)
    ensures SnakeKey(a + [c] + b) == a + ['_', ToLower(c)] + b
  {
    SnakeKeyAppend(a, [c] + b);
    assert a + [c] + b == a + ([c] + b);
    SnakeOfNoUpper(a);
    SnakeKeyCons([c] + b);
    assert ([c] + b)[1..] == b;
    SnakeOfNoUpper(b);
  }

  /** Neither round trip holds in general: `a_b` comes back as `aB`. */
  lemma RoundTripCounterexample()
    ensures SnakeKey("a_b") == "a_b"
    ensures CamelKey(SnakeKey("a_b")) == "aB"
  {
    SnakeOfNoUpper("a_b");
    assert CamelKey("b") == "b";
  }

  // ---------------------------------------------------------------------------
  // Objects as member sequences.

  /** The keys of an object, in order. */
  function KeyList(obj: seq<Member>): (ks: seq<string>)
    ensures |ks| == |obj|
  {
    if obj == [] then [] else [obj[0].key] + KeyList(obj[1..])
  }
  lemma {:induction false} KeyListAppend(a: seq<Member>, b: seq<Member>)
    ensures KeyList(a + b) == KeyList(a) + KeyList(b)
  {
    if a != [] {
      KeyListAppend(a[1..], b);
      assert (a + b)[1..] == a[1..] + b;
      calc {
        KeyList(a + b);
        [(a + b)[0].key] + KeyList((a + b)[1..]);
        [a[0].key] + (KeyList(a[1..]) + KeyList(b));
        ([a[0].key] + KeyList(a[1..])) + KeyList(b);
      }
    } else {
      assert a + b == b;
    }
  }

  lemma {:induction false} KeyListIndices(obj: seq<Member>)
    ensures forall i :: 0 <= i < |obj| ==> KeyList(obj)[i] == obj[i].key
  {
    if obj != [] {
      KeyListIndices(obj[1..]);
      forall i | 0 < i < |obj|
        ensures KeyList(obj)[i] == obj[i].key
      {
        assert KeyList(obj)[i] == KeyList(obj[1..])[i - 1];
      }
    }
  }

  predicate DistinctKeys(obj: seq<Member>) {
    Distinct(KeyList(obj))
  }

  lemma DistinctSnoc(ks: seq<string>, k: string)
    requires Distinct(ks) && k !in ks
    ensures Distinct(ks + [k])
  {
    var s := ks + [k];
    forall i, j | 0 <= i < j < |s|
      ensures s[i] != s[j]
    {
      if j < |ks| {
        assert s[i] == ks[i] && s[j] == ks[j];
      } else {
        assert s[i] == ks[i];
      }
    }
  }
  /** `obj[key]`. */
  function Lookup(obj: seq<Member>, key: string): (r: Option<Json>)
    ensures r.Some? <==> key in KeyList(obj)
  {
    if obj == [] then None
    else if obj[0].key == key then Some(obj[0].value)
    else Lookup(obj[1..], key)
  }
  /** In an object without repeated keys, each member is found by its key. */
  lemma {:induction false} LookupMember(obj: seq<Member>, i: nat)
    requires DistinctKeys(obj) && i < |obj|
    ensures Lookup(obj, obj[i].key) == Some(obj[i].value)
  {
    KeyListIndices(obj);
    if i > 0 {
      assert KeyList(obj[1..]) == KeyList(obj)[1..];
      assert obj[1..][i - 1] == obj[i];
      LookupMember(obj[1..], i - 1);
    }
  }

  /** `obj[key] = value`: an existing key keeps its position and takes the
      new value; a new key goes last. */
  function Put(obj: seq<Member>, key: string, value: Json): (r: seq<Member>)
    ensures KeyList(r) == if key in KeyList(obj) then KeyList(obj) else KeyList(obj) + [key]
  {
    if obj == [] then [Member(key, value)]
    else if obj[0].key == key then [Member(key, value)] + obj[1..]
    else
      var rest := Put(obj[1..], key, value);
      assert KeyList([obj[0]] + rest) == [obj[0].key] + KeyList(rest);
      assert obj == [obj[0]] + obj[1..];
      [obj[0]] + rest
  }

  lemma {:induction false} PutLookup(obj: seq<Member>, key: string, value: Json, k: string)
    ensures Lookup(Put(obj, key, value), k) == if k == key then Some(value) else Lookup(obj, k)
  {
    if obj != [] && obj[0].key != key {
      PutLookup(obj[1..], key, value, k);
    }
  }

  lemma {:induction false} PutNew(obj: seq<Member>, key: string, value: Json)
    requires key !in KeyList(obj)
    ensures Put(obj, key, value) == obj + [Member(key, value)]
  {
    if obj != [] {
      assert KeyList(obj) == [obj[0].key] + KeyList(obj[1..]);
      PutNew(obj[1..], key, value);
      assert obj == [obj[0]] + obj[1..];
    }
  }

  /** The object built by assigning the members in order. */
  function Collect(ms: seq<Member>): (r: seq<Member>)
    ensures DistinctKeys(r)
  {
    if ms == [] then []
    else
      var init := ms[..|ms| - 1];
      var last := ms[|ms| - 1];
      var c := Collect(init);
      var r := Put(c, last.key, last.value);
      assert DistinctKeys(r) by {
        if last.key !in KeyList(c) {
          DistinctSnoc(KeyList(c), last.key);
        }
      }
      r
  }

  /** When several members share a key, the last one's value is kept. */
  lemma {:induction false} CollectLastWins(ms: seq<Member>, i: nat)
    requires i < |ms|
    requires forall j :: i < j < |ms| ==> ms[j].key != ms[i].key
    ensures Lookup(Collect(ms), ms[i].key) == Some(ms[i].value)
  {
    var init := ms[..|ms| - 1];
    var last := ms[|ms| - 1];
    PutLookup(Collect(init), last.key, last.value, ms[i].key);
    if i < |ms| - 1 {
      CollectLastWins(init, i);
    }
  }

  /** Members with distinct keys are collected as they are. */
  lemma {:induction false} CollectDistinct(ms: seq<Member>)
    requires DistinctKeys(ms)
    ensures Collect(ms) == ms
  {
    if ms != [] {
      var init := ms[..|ms| - 1];
      var last := ms[|ms| - 1];
      assert init + [last] == ms;
      KeyListAppend(init, [last]);
      assert KeyList(init) == KeyList(ms)[..|ms| - 1];
      CollectDistinct(init);
      forall i | 0 <= i < |init|
        ensures KeyList(init)[i] != last.key
      {
        assert KeyList(ms)[i] == KeyList(init)[i] && KeyList(ms)[|ms| - 1] == last.key;
      }
      assert last.key !in KeyList(init);
      PutNew(init, last.key, last.value);
      assert init + [last] == ms;
    }
  }

  /** The collected object has the keys of its members, each once. */
  lemma {:induction false} CollectKeys(ms: seq<Member>, k: string)
    ensures k in KeyList(Collect(ms)) <==> k in KeyList(ms)
  {
    if ms != [] {
      var init := ms[..|ms| - 1];
      var last := ms[|ms| - 1];
      CollectKeys(init, k);
      CollectSnoc(ms, init, last);
      KeyListSnoc(ms, init, last);
    }
  }

  /** Collecting one more member puts it into the object collected so far. */
  lemma CollectSnoc(ms: seq<Member>, init: seq<Member>, last: Member)
    requires ms != [] && init == ms[..|ms| - 1] && last == ms[|ms| - 1]
    ensures Collect(ms) == Put(Collect(init), last.key, last.value)
  {
  }

  lemma KeyListSnoc(ms: seq<Member>, init: seq<Member>, last: Member)
    requires ms != [] && init == ms[..|ms| - 1] && last == ms[|ms| - 1]
    ensures KeyList(ms) == KeyList(init) + [last.key]
  {
    assert init + [last] == ms;
    KeyListAppend(init, [last]);
  }

  // ---------------------------------------------------------------------------
  // `transformKeysToCamelCase` and `transformKeysToSnakeCase`.

  predicate IsObject(j: Json) {
    j.JArr? || j.JObj?
  }

  /** The transform with key rewrite `f` (CamelKey or SnakeKey): arrays
      element by element, objects key by key with their values transformed,
      everything else as it is. */
  function TransformKeys(j: Json, f: string -> string): (r: Json)
    decreases j
  {
    match j
    case JArr(items) => JArr(seq(|items|, i requires 0 <= i < |items| => TransformKeys(items[i], f)))
    case JObj(ms) =>
      JObj(Collect(seq(|ms|, i requires 0 <= i < |ms| => Member(f(ms[i].key), TransformKeys(ms[i].value, f)))))
    case _ => j
  }

  /** The recursive loop of the source: an array is mapped, an object is
      filled one entry at a time. */
  method TransformKeysInPlace(j: Json, f: string -> string) returns (r: Json)
    ensures r == TransformKeys(j, f)
    decreases j, 1
  {
    match j {
      case JArr(items) =>
        ghost var target := seq(|items|, i requires 0 <= i < |items| => TransformKeys(items[i], f));
        var out := [];
        for i := 0 to |items|
          invariant out == target[..i]
        {
          var t := TransformKeysInPlace(items[i], f);
          out := out + [t];
        }
        assert target[..|items|] == target;
        r := JArr(out);
      case JObj(ms) =>
        var obj := TransformMembersInPlace(ms, f);
        r := JObj(obj);
      case _ =>
        r := j;
    }
  }

  /** The object branch of the loop: each member's value is transformed and
      assigned under the rewritten key, in order. */
  method TransformMembersInPlace(ms: seq<Member>, f: string -> string) returns (obj: seq<Member>)
    ensures obj == Collect(RenamedMembers(ms, f))
    decreases JObj(ms), 0
  {
    ghost var renamed := RenamedMembers(ms, f);
    obj := [];
    for i := 0 to |ms|
      invariant obj == Collect(renamed[..i])
    {
      var v := TransformKeysInPlace(ms[i].value, f);
      assert renamed[i] == Member(f(ms[i].key), v);
      assert renamed[..i + 1][..i] == renamed[..i];
      CollectSnoc(renamed[..i + 1], renamed[..i], renamed[i]);
      obj := Put(obj, f(ms[i].key), v);
    }
    assert renamed[..|ms|] == renamed;
  }

  /** Arrays keep their length and order, and scalars and null are returned
      unchanged. */
  lemma TransformShape(j: Json, f: string -> string)
    ensures !IsObject(j) ==> TransformKeys(j, f) == j
    ensures j.JArr? ==>
      && TransformKeys(j, f).JArr? && |TransformKeys(j, f).items| == |j.items|
      && forall i :: 0 <= i < |j.items| ==> TransformKeys(j, f).items[i] == TransformKeys(j.items[i], f)
  {
  }

  /** The members of `JObj(ms)` before they are assigned into the new object. */
  function RenamedMembers(ms: seq<Member>, f: string -> string): (r: seq<Member>)
    ensures |r| == |ms|
    ensures TransformKeys(JObj(ms), f) == JObj(Collect(r))
    ensures forall m :: 0 <= m < |ms| ==> r[m] == Member(f(ms[m].key), TransformKeys(ms[m].value, f))
  {
    seq(|ms|, m requires 0 <= m < |ms| => Member(f(ms[m].key), TransformKeys(ms[m].value, f)))
  }

  /** An object's keys become the rewritten keys, each once. */
  lemma TransformObjectKeys(ms: seq<Member>, f: string -> string, k: string)
    ensures var r := TransformKeys(JObj(ms), f);
      && r.JObj? && DistinctKeys(r.members)
      && (k in KeyList(r.members) <==> exists m :: 0 <= m < |ms| && f(ms[m].key) == k)
  {
    var renamed := RenamedMembers(ms, f);
    CollectKeys(renamed, k);
    KeyListIndices(renamed);
  }

  /** A rewritten key takes the transformed value of the last member whose
      key rewrites to it. */
  lemma TransformObjectLastWins(ms: seq<Member>, f: string -> string, i: nat)
    requires i < |ms|
    requires forall j :: i < j < |ms| ==> f(ms[j].key) != f(ms[i].key)
    ensures Lookup(TransformKeys(JObj(ms), f).members, f(ms[i].key)) == Some(TransformKeys(ms[i].value, f))
  {
    CollectLastWins(RenamedMembers(ms, f), i);
  }

  /** Two keys that rewrite to the same key collapse into one member holding
      the later value. */
  lemma CamelCollision()
    ensures TransformKeys(JObj([Member("a_b", JNum(1)), Member("aB", JNum(2))]), CamelKey)
            == JObj([Member("aB", JNum(2))])
  {
    CollidingKeys();
    Collision("a_b", JNum(1), "aB", JNum(2), "aB", CamelKey);
  }

  lemma CollidingKeys()
    ensures CamelKey("a_b") == "aB" && CamelKey("aB") == "aB"
  {
    assert CamelKey("b") == "b";
    assert CamelKey("B") == "B";
  }

  lemma Collision(k1: string, v1: Json, k2: string, v2: Json, s: string, f: string -> string)
    requires f(k1) == s && f(k2) == s
    requires !IsObject(v1) && !IsObject(v2)
    ensures TransformKeys(JObj([Member(k1, v1), Member(k2, v2)]), f) == JObj([Member(s, v2)])
  {
    TransformShape(v1, f);
    TransformShape(v2, f);
    var ms := [Member(k1, v1), Member(k2, v2)];
    var renamed := RenamedMembers(ms, f);
    assert renamed == [Member(s, v1), Member(s, v2)];
    assert renamed[..1][..0] == [];
    assert Collect(renamed[..1]) == Put([], s, v1);
    assert Collect(renamed) == Put([Member(s, v1)], s, v2);
  }

  /** Every object key satisfies `ok` and no object repeats a key. */
  predicate KeysSatisfy(j: Json, ok: string -> bool)
    decreases j
  {
    match j
    case JArr(items) => forall i :: 0 <= i < |items| ==> KeysSatisfy(items[i], ok)
    case JObj(ms) => DistinctKeys(ms) && forall i :: 0 <= i < |ms| ==> ok(ms[i].key) && KeysSatisfy(ms[i].value, ok)
    case _ => true
  }

  /** The object step of `TransformRoundTrip`, given the round trip of every
      member value. */
  lemma ObjectRoundTrip(ms: seq<Member>, f: string -> string, g: string -> string, ok: string -> bool)
    requires forall k :: ok(k) ==> g(f(k)) == k
    requires DistinctKeys(ms) && forall i :: 0 <= i < |ms| ==> ok(ms[i].key)
    requires forall i :: 0 <= i < |ms| ==> TransformKeys(TransformKeys(ms[i].value, f), g) == ms[i].value
    ensures TransformKeys(TransformKeys(JObj(ms), f), g) == JObj(ms)
  {
    var once := RenamedMembers(ms, f);
    KeyListIndices(ms);
    KeyListIndices(once);
    forall a, b | 0 <= a < b < |once|
      ensures KeyList(once)[a] != KeyList(once)[b]
    {
      assert g(once[a].key) == ms[a].key && g(once[b].key) == ms[b].key;
      assert KeyList(ms)[a] != KeyList(ms)[b];
    }
    CollectDistinct(once);
    var twice := RenamedMembers(once, g);
    assert twice == ms;
    CollectDistinct(ms);
  }

  /** Transforming with `f` and then with `g` restores every value whose keys
      `g` maps back after `f`. */
  lemma {:induction false} TransformRoundTrip(j: Json, f: string -> string, g: string -> string, ok: string -> bool)
    requires forall k :: ok(k) ==> g(f(k)) == k
    requires KeysSatisfy(j, ok)
    ensures TransformKeys(TransformKeys(j, f), g) == j
    decreases j
  {
    match j
    case JArr(items) =>
      var once := TransformKeys(j, f).items;
      var twice := TransformKeys(JArr(once), g).items;
      forall i | 0 <= i < |items|
        ensures twice[i] == items[i]
      {
        TransformRoundTrip(items[i], f, g, ok);
      }
      assert twice == items;
    case JObj(ms) =>
      forall i | 0 <= i < |ms|
        ensures TransformKeys(TransformKeys(ms[i].value, f), g) == ms[i].value
      {
        TransformRoundTrip(ms[i].value, f, g, ok);
      }
      ObjectRoundTrip(ms, f, g, ok);
    case _ =>
  }

  /** A response whose keys have no upper-case letters, converted to camel case
      and sent back, reaches the back end with its original keys. */
  lemma SnakeResponseRoundTrip(j: Json)
    requires KeysSatisfy(j, NoUpper)
    ensures TransformKeys(TransformKeys(j, CamelKey), SnakeKey) == j
  {
    forall k | NoUpper(k)
      ensures SnakeKey(CamelKey(k)) == k
    {
      SnakeOfCamel(k);
    }
    TransformRoundTrip(j, CamelKey, SnakeKey, NoUpper);
  }

  /** A request whose keys have no `_` before a lower-case letter, converted
      to snake case and echoed back, arrives with its original keys. */
  lemma CamelRequestRoundTrip(j: Json)
    requires KeysSatisfy(j, NoSnakeJoint)
    ensures TransformKeys(TransformKeys(j, SnakeKey), CamelKey) == j
  {
    forall k | NoSnakeJoint(k)
      ensures CamelKey(SnakeKey(k)) == k
    {
      CamelOfSnake(k);
    }
    TransformRoundTrip(j, SnakeKey, CamelKey, NoSnakeJoint);
  }

  // ---------------------------------------------------------------------------
  // The interceptors.

  /** The `data` of an outgoing request. */
  datatype Body = NoBody | FormData | JsonBody(json: Json)

  /** The request interceptor: a truthy object body that is not FormData is
      converted to snake case. */
  function RequestData(b: Body): (r: Body)
    ensures b.JsonBody? && IsObject(b.json) ==> r == JsonBody(TransformKeys(b.json, SnakeKey))
    ensures !(b.JsonBody? && IsObject(b.json)) ==> r == b
  {
    if b.JsonBody? && IsObject(b.json) then JsonBody(TransformKeys(b.json, SnakeKey)) else b
  }

  /** The response interceptor: truthy object data is converted to camel case. */
  function ResponseData(data: Json): (r: Json)
    ensures IsObject(data) ==> r == TransformKeys(data, CamelKey)
    ensures !IsObject(data) ==> r == data
  {
    if IsObject(data) then TransformKeys(data, CamelKey) else data
  }

  /** The interceptors' guards only spare FormData: every JSON body and every
      response ends up transformed, since the transforms leave scalars alone. */
  lemma InterceptorsTransformAllJson(b: Body, data: Json)
    ensures b.JsonBody? ==> RequestData(b) == JsonBody(TransformKeys(b.json, SnakeKey))
    ensures !b.JsonBody? ==> RequestData(b) == b
    ensures ResponseData(data) == TransformKeys(data, CamelKey)
  {
    TransformShape(data, CamelKey);
    if b.JsonBody? {
      TransformShape(b.json, SnakeKey);
    }
  }

  /** An axios request config, whose `data` the request interceptor replaces. */
  class RequestConfig {
    var data: Body

    constructor (data: Body)
      ensures this.data == data
    {
      this.data := data;
    }

    method Intercept()
      modifies this
      ensures data == RequestData(old(data))
    {
      if data.JsonBody? && IsObject(data.json) {
        var converted := TransformKeysInPlace(data.json, SnakeKey);
        data := JsonBody(converted);
      }
    }
  }

  /** An axios response, whose `data` the response interceptor replaces. */
  class Response {
    var data: Json

    constructor (data: Json)
      ensures this.data == data
    {
      this.data := data;
    }

    method Intercept()
      modifies this
      ensures data == ResponseData(old(data))
    {
      if IsObject(data) {
        data := TransformKeysInPlace(data, CamelKey);
      }
    }
  }

  // ---------------------------------------------------------------------------
  // What the back end reads from a request body: a missing or null field is
  // absent. Fields of another JSON type are read as absent too.

  function Field(j: Json, key: string): Option<Json> {
    if j.JObj? then Lookup(j.members, key) else None
  }

  function StringField(j: Json, key: string): Option<string> {
    match Field(j, key)
    case Some(JStr(s)) => Some(s)
    case _ => None
  }

  function IntField(j: Json, key: string): Option<int> {
    match Field(j, key)
    case Some(JNum(n)) => Some(n)
    case _ => None
  }

  function IdField(j: Json, key: string): Option<Students.Id> {
    match Field(j, key)
    case Some(JNum(n)) => if n > 0 then Some(n) else None
    case _ => None
  }

  /** The fields PUT `/students/:id` destructures from `req.body`. */
  const PUT_KEYS := ["name", "admission_no", "email", "phone", "address", "membership_start",
                     "membership_end", "shift_id", "seat_id", "fee"]

  /** The student body PUT `/students/:id` reads from a JSON body. */
  function PutBody(j: Json): (b: Students.StudentBody)
    ensures b.profileImageUrl.None?
  {
    Students.StudentBody(StringField(j, "name"), StringField(j, "admission_no"), StringField(j, "email"),
                         StringField(j, "phone"), StringField(j, "address"),
                         IntField(j, "membership_start"), IntField(j, "membership_end"),
                         IdField(j, "shift_id"), IdField(j, "seat_id"), IntField(j, "fee"), None)
  }

  // ---------------------------------------------------------------------------
  // `addSeats`

  /** `addSeats({ seatNumbers })` sends this body to POST `/seats`. */
  function AddSeatsPayload(seatNumbers: string): Json {
    JObj([Member("seatNumbers", JStr(seatNumbers))])
  }

  lemma SeatNumbersKey()
    ensures SnakeKey("seatNumbers") == "seat_numbers"
  {
    SnakeOfOneHump("seat", 'N', "umbers");
    assert "seat" + ['N'] + "umbers" == "seatNumbers";
    assert "seat" + ['_', ToLower('N')] + "umbers" == "seat_numbers";
  }

  /** A one-member object is sent with its key rewritten. */
  lemma SingleMemberSent(key: string, value: Json, f: string -> string)
    ensures TransformKeys(JObj([Member(key, value)]), f) == JObj([Member(f(key), TransformKeys(value, f))])
  {
    var renamed := RenamedMembers([Member(key, value)], f);
    assert renamed == [Member(f(key), TransformKeys(value, f))];
    SentAsRenamed([Member(key, value)], f);
  }

  /** The request interceptor turns the one key into `seat_numbers`. */
  lemma AddSeatsSent(seatNumbers: string)
    ensures RequestData(JsonBody(AddSeatsPayload(seatNumbers)))
            == JsonBody(JObj([Member("seat_numbers", JStr(seatNumbers))]))
  {
    SeatNumbersKey();
    SingleMemberSent("seatNumbers", JStr(seatNumbers), SnakeKey);
  }

  /** After the request interceptor the body carries `seat_numbers`, the key
      POST `/seats` reads, so the route parses exactly the string the page
      sent. */
  lemma AddSeatsReachesRoute(seatNumbers: string, seats: seq<Seats.Seat>)
    ensures StringField(RequestData(JsonBody(AddSeatsPayload(seatNumbers))).json, "seat_numbers") == Some(seatNumbers)
    ensures Seats.AddSeatsOutcome(StringField(RequestData(JsonBody(AddSeatsPayload(seatNumbers))).json, "seat_numbers"), seats)
            == Seats.AddSeatsOutcome(Some(seatNumbers), seats)
  {
    AddSeatsSent(seatNumbers);
  }

  // ---------------------------------------------------------------------------
  // `renewMembership`

  /** `renewMembership(id, data)` sends `{ ...data, status: 'active' }`. */
  function RenewPayload(data: seq<Member>): (j: Json)
    ensures j.JObj? && Lookup(j.members, "status") == Some(JStr("active"))
  {
    PutLookup(data, "status", JStr("active"), "status");
    JObj(Put(data, "status", JStr("active")))
  }

  /** As written, `renewMembership` sends its body to PUT `/students/:id`. */
  function RenewViaPut(id: int, data: seq<Member>, rows: seq<Students.Student>,
                       shifts: set<Students.Id>, seats: set<Students.Id>): Result<Students.Student, Students.StudentError> {
    Students.UpdateOutcome(id, PutBody(RequestData(JsonBody(RenewPayload(data))).json), rows, shifts, seats)
  }

  /** PUT never writes `status`: whatever `renewMembership` sends, a renewed
      row keeps its stored status. */
  lemma RenewViaPutKeepsStatus(id: int, data: seq<Member>, rows: seq<Students.Student>,
                               shifts: set<Students.Id>, seats: set<Students.Id>)
    requires RenewViaPut(id, data, rows, shifts, seats).Success?
    ensures RenewViaPut(id, data, rows, shifts, seats).value.status
            == rows[Students.IndexOfId(rows, id).value].status
  {
    var b := PutBody(RequestData(JsonBody(RenewPayload(data))).json);
    Students.UpdateFieldRules(rows[Students.IndexOfId(rows, id).value], b);
  }

  /** A caller's `{ membershipStart, membershipEnd }`. */
  function DatesPayload(start: int, end: int): seq<Member> {
    [Member("membershipStart", JNum(start)), Member("membershipEnd", JNum(end))]
  }

  /** The two date keys in snake case. */
  lemma DateKeys()
    ensures SnakeKey("membershipStart") == "membership_start"
    ensures SnakeKey("membershipEnd") == "membership_end"
  {
    SnakeOfOneHump("membership", 'S', "tart");
    assert "membership" + ['S'] + "tart" == "membershipStart";
    assert "membership" + ['_', ToLower('S')] + "tart" == "membership_start";
    SnakeOfOneHump("membership", 'E', "nd");
    assert "membership" + ['E'] + "nd" == "membershipEnd";
    assert "membership" + ['_', ToLower('E')] + "nd" == "membership_end";
  }

  /** Members with distinct keys, rewritten into distinct keys, arrive as the
      rewritten members. */
  lemma SentAsRenamed(ms: seq<Member>, f: string -> string)
    requires DistinctKeys(RenamedMembers(ms, f))
    ensures TransformKeys(JObj(ms), f) == JObj(RenamedMembers(ms, f))
  {
    CollectDistinct(RenamedMembers(ms, f));
  }

  /** Objects of two and three members whose rewritten keys are distinct are
      sent member by member, in order. */
  lemma TwoMembersSent(k1: string, v1: Json, k2: string, v2: Json, f: string -> string)
    requires f(k1) != f(k2)
    ensures TransformKeys(JObj([Member(k1, v1), Member(k2, v2)]), f)
            == JObj([Member(f(k1), TransformKeys(v1, f)), Member(f(k2), TransformKeys(v2, f))])
  {
    var ms := [Member(k1, v1), Member(k2, v2)];
    var renamed := RenamedMembers(ms, f);
    assert renamed == [Member(f(k1), TransformKeys(v1, f)), Member(f(k2), TransformKeys(v2, f))];
    KeyListIndices(renamed);
    SentAsRenamed(ms, f);
  }

  lemma ThreeMembersSent(k1: string, v1: Json, k2: string, v2: Json, k3: string, v3: Json, f: string -> string)
    requires f(k1) != f(k2) && f(k1) != f(k3) && f(k2) != f(k3)
    ensures TransformKeys(JObj([Member(k1, v1), Member(k2, v2), Member(k3, v3)]), f)
            == JObj([Member(f(k1), TransformKeys(v1, f)), Member(f(k2), TransformKeys(v2, f)),
                     Member(f(k3), TransformKeys(v3, f))])
  {
    var ms := [Member(k1, v1), Member(k2, v2), Member(k3, v3)];
    var renamed := RenamedMembers(ms, f);
    assert renamed == [Member(f(k1), TransformKeys(v1, f)), Member(f(k2), TransformKeys(v2, f)),
                       Member(f(k3), TransformKeys(v3, f))];
    KeyListIndices(renamed);
    SentAsRenamed(ms, f);
  }

  /** The request interceptor rewrites every object body in snake case. */
  lemma RequestOfObject(j: Json)
    requires IsObject(j)
    ensures RequestData(JsonBody(j)) == JsonBody(TransformKeys(j, SnakeKey))
  {
  }

  /** The date and status members under the snake rewrite, for any keys whose
      snake forms `sa`, `sb`, `sc` are distinct. */
  lemma DateMembersSnaked(start: int, end: int, a: string, b: string, sa: string, sb: string)
    requires SnakeKey(a) == sa && SnakeKey(b) == sb && sa != sb
    ensures TransformKeys(JObj([Member(a, JNum(start)), Member(b, JNum(end))]), SnakeKey)
            == JObj([Member(sa, JNum(start)), Member(sb, JNum(end))])
  {
    TwoMembersSent(a, JNum(start), b, JNum(end), SnakeKey);
  }

  lemma RenewMembersSnaked(start: int, end: int, a: string, b: string, c: string, sa: string, sb: string, sc: string)
    requires SnakeKey(a) == sa && SnakeKey(b) == sb && SnakeKey(c) == sc && sa != sb && sa != sc && sb != sc
    ensures TransformKeys(JObj([Member(a, JNum(start)), Member(b, JNum(end)), Member(c, JStr("active"))]), SnakeKey)
            == JObj([Member(sa, JNum(start)), Member(sb, JNum(end)), Member(sc, JStr("active"))])
  {
    ThreeMembersSent(a, JNum(start), b, JNum(end), c, JStr("active"), SnakeKey);
  }

  /** `{ ...data, status: 'active' }` for the page's two dates. */
  lemma RenewMembers(start: int, end: int)
    ensures RenewPayload(DatesPayload(start, end))
            == JObj([Member("membershipStart", JNum(start)), Member("membershipEnd", JNum(end)),
                     Member("status", JStr("active"))])
  {
    var data := DatesPayload(start, end);
    KeyListIndices(data);
    PutNew(data, "status", JStr("active"));
  }

  lemma StatusKey()
    ensures SnakeKey("status") == "status"
  {
    SnakeOfNoUpper("status");
  }

  /** What `renewMembership` with the two dates puts on the wire. */
  lemma RenewPayloadSent(start: int, end: int)
    ensures RequestData(JsonBody(RenewPayload(DatesPayload(start, end)))).json
            == JObj([Member("membership_start", JNum(start)), Member("membership_end", JNum(end)),
                     Member("status", JStr("active"))])
  {
    RenewMembers(start, end);
    DateKeys();
    StatusKey();
    RequestOfObject(RenewPayload(DatesPayload(start, end)));
    RenewMembersSnaked(start, end, "membershipStart", "membershipEnd", "status",
                       "membership_start", "membership_end", "status");
  }

  /** PUT reads only the two dates from that body. */
  lemma RenewPutBody(start: int, end: int, sent: Json)
    requires sent == JObj([Member("membership_start", JNum(start)), Member("membership_end", JNum(end)),
                           Member("status", JStr("active"))])
    ensures PutBody(sent) == Students.StudentBody(None, None, None, None, None, Some(start), Some(end),
                                                  None, None, None, None)
  {
    LookupOfThree("membership_start", JNum(start), "membership_end", JNum(end), "status", JStr("active"));
  }

  /** Looking a key up in a three-member object. */
  lemma LookupOfThree(a: string, va: Json, b: string, vb: Json, c: string, vc: Json)
    ensures forall key ::
              Lookup([Member(a, va), Member(b, vb), Member(c, vc)], key) ==
              (if key == a then Some(va) else if key == b then Some(vb) else if key == c then Some(vc) else None)
  {
    var m := [Member(a, va), Member(b, vb), Member(c, vc)];
    forall key
      ensures Lookup(m, key) == if key == a then Some(va) else if key == b then Some(vb) else if key == c then Some(vc) else None
    {
      assert m[1..] == [Member(b, vb), Member(c, vc)];
      LookupOfTwo(b, vb, c, vc);
    }
  }

  /** An expired student renewed through `renewMembership` with the two dates
      gets the new dates but is still expired afterwards, and loses its shift,
      seat and fee. */
  lemma RenewViaPutLeavesExpired(s: Students.Student, start: int, end: int)
    requires s.status == Students.EXPIRED
    ensures var r := RenewViaPut(s.id, DatesPayload(start, end), [s], {}, {});
      && r.Success? && r.value.membershipStart == start && r.value.membershipEnd == end
      && r.value.status == Students.EXPIRED
      && r.value.shiftId.None? && r.value.seatId.None? && r.value.fee.None?
  {
    RenewPayloadSent(start, end);
    RenewPutBody(start, end, RequestData(JsonBody(RenewPayload(DatesPayload(start, end)))).json);
    var b := Students.StudentBody(None, None, None, None, None, Some(start), Some(end), None, None, None, None);
    assert Students.IndexOfId([s], s.id) == Some(0);
    assert !Students.SlotTaken([s], Students.UpdatedStudent(s, b));
    RenewViaPutKeepsStatus(s.id, DatesPayload(start, end), [s], {}, {});
  }

  /** The two dates on their own, as the renew route should receive them. */
  lemma DatesSent(start: int, end: int)
    ensures RequestData(JsonBody(JObj(DatesPayload(start, end)))).json
            == JObj([Member("membership_start", JNum(start)), Member("membership_end", JNum(end))])
  {
    DateKeys();
    RequestOfObject(JObj(DatesPayload(start, end)));
    DateMembersSnaked(start, end, "membershipStart", "membershipEnd", "membership_start", "membership_end");
  }

  lemma DateFields(start: int, end: int, sent: Json)
    requires sent == JObj([Member("membership_start", JNum(start)), Member("membership_end", JNum(end))])
    ensures IntField(sent, "membership_start") == Some(start) && IntField(sent, "membership_end") == Some(end)
  {
    LookupOfTwo("membership_start", JNum(start), "membership_end", JNum(end));
  }

  /** Looking a key up in a two-member object. */
  lemma LookupOfTwo(a: string, va: Json, b: string, vb: Json)
    ensures forall key ::
              Lookup([Member(a, va), Member(b, vb)], key) ==
              (if key == a then Some(va) else if key == b then Some(vb) else None)
  {
    var m := [Member(a, va), Member(b, vb)];
    forall key ensures Lookup(m, key) == if key == a then Some(va) else if key == b then Some(vb) else None {
      assert m[1..] == [Member(b, vb)];
      assert m[1..][1..] == [];
    }
  }

  /** The renew route, POST `/students/:id/renew`, which sets the status. */
  function RenewViaRenewRoute(id: int, data: seq<Member>, rows: seq<Students.Student>)
    : Result<Students.Student, Students.StudentError> {
    var sent := RequestData(JsonBody(JObj(data))).json;
    Students.RenewOutcome(id, IntField(sent, "membership_start"), IntField(sent, "membership_end"), rows)
  }

  /** Sending the two dates to the renew route sets exactly the dates and the
      status `'active'` of the student. */
  lemma RenewRouteActivates(id: int, start: int, end: int, rows: seq<Students.Student>)
    requires Students.IndexOfId(rows, id).Some?
    ensures RenewViaRenewRoute(id, DatesPayload(start, end), rows)
            == Success(rows[Students.IndexOfId(rows, id).value].(membershipStart := start, membershipEnd := end,
                                                                  status := Students.ACTIVE))
  {
    DatesSent(start, end);
    DateFields(start, end, RequestData(JsonBody(JObj(DatesPayload(start, end)))).json);
  }
}
