/** Orders on texts, and lists compared as bags. */
module TextOrder {
  import opened Sorting

  predicate TextLe(a: string, b: string) {
    a == [] || (b != [] && (a[0] < b[0] || (a[0] == b[0] && TextLe(a[1..], b[1..]))))
  }

  lemma {:induction false} TextTotal(a: string, b: string)
    ensures TextLe(a, b) || TextLe(b, a)
    ensures TextLe(a, b) && TextLe(b, a) ==> a == b
  {
    if a != [] && b != [] && a[0] == b[0] {
      TextTotal(a[1..], b[1..]);
      assert a == [a[0]] + a[1..] && b == [b[0]] + b[1..];
    }
  }

  lemma {:induction false} TextTransitive(a: string, b: string, c: string)
    requires TextLe(a, b) && TextLe(b, c)
    ensures TextLe(a, c)
  {
    if a != [] && a[0] == b[0] == c[0] { TextTransitive(a[1..], b[1..], c[1..]); }
  }

  lemma TextLeIsTotal()
    ensures TotalOrder(TextLe)
  {
    forall a, b ensures (TextLe(a, b) || TextLe(b, a)) && (TextLe(a, b) && TextLe(b, a) ==> a == b) { TextTotal(a, b); }
    forall a, b, c | TextLe(a, b) && TextLe(b, c) ensures TextLe(a, c) { TextTransitive(a, b, c); }
  }

  /** Sorting by a total order is equal exactly for the same bag of elements. */
  lemma SortedAsBags<T(!new)>(le: (T, T) -> bool, a: seq<T>, b: seq<T>)
    requires TotalOrder(le)
    ensures Sort(le, a) == Sort(le, b) <==> multiset(a) == multiset(b)
  {
    if multiset(a) == multiset(b) { SortIgnoresOrder(le, a, b); }
  }

  function Map<S, T>(f: S -> T, s: seq<S>): (r: seq<T>)
    ensures |r| == |s| && forall i :: 0 <= i < |s| ==> r[i] == f(s[i])
  {
    seq(|s|, i requires 0 <= i < |s| => f(s[i]))
  }

  function Drop<T>(s: seq<T>, j: nat): seq<T>
    requires j < |s|
  {
    s[..j] + s[j + 1..]
  }

  lemma DropBag<T>(s: seq<T>, j: nat)
    requires j < |s|
    ensures multiset(s) == multiset(Drop(s, j)) + multiset{s[j]}
  {
    assert s == s[..j] + ([s[j]] + s[j + 1..]);
  }

  lemma HeadBag<T>(s: seq<T>)
    requires s != []
    ensures multiset(s) == multiset(s[1..]) + multiset{s[0]}
  {
    assert s == [s[0]] + s[1..];
  }

  /** Removing an equal element from two bags keeps them equal or different. */
  lemma BagStep<T>(a: seq<T>, b: seq<T>, j: nat)
    requires a != [] && j < |b| && a[0] == b[j]
    ensures multiset(a) == multiset(b) <==> multiset(a[1..]) == multiset(Drop(b, j))
  {
    HeadBag(a);
    DropBag(b, j);
    if multiset(a) == multiset(b) {
      assert multiset(a[1..]) == multiset(a) - multiset{a[0]};
      assert multiset(Drop(b, j)) == multiset(b) - multiset{b[j]};
    }
  }

  lemma InBag<T>(a: seq<T>, b: seq<T>) returns (j: nat)
    requires a != [] && multiset(a) == multiset(b)
    ensures j < |b| && b[j] == a[0]
  {
    SameElements(a, b);
    assert a[0] in b;
    j :| j < |b| && b[j] == a[0];
  }

  /** Two ways of forgetting that forget the same give the same comparison of bags. */
  lemma {:induction false} SameClasses<S(!new), T, U>(f: S -> T, g: S -> U, a: seq<S>, b: seq<S>)
    requires forall x, y :: f(x) == f(y) <==> g(x) == g(y)
    requires multiset(Map(f, a)) == multiset(Map(f, b))
    ensures multiset(Map(g, a)) == multiset(Map(g, b))
    decreases |a|
  {
    if a == [] {
      assert |multiset(Map(f, a))| == |Map(f, a)| == 0;
      assert |multiset(Map(f, b))| == |Map(f, b)|;
      assert Map(g, a) == Map(g, b);
    } else {
      var j := InBag(Map(f, a), Map(f, b));
      BagStep(Map(f, a), Map(f, b), j);
      BagStep(Map(g, a), Map(g, b), j);
      MapParts(f, a, b, j);
      MapParts(g, a, b, j);
      SameClasses(f, g, a[1..], Drop(b, j));
    }
  }

  lemma MapParts<S, T>(f: S -> T, a: seq<S>, b: seq<S>, j: nat)
    requires a != [] && j < |b|
    ensures Map(f, a)[1..] == Map(f, a[1..]) && Drop(Map(f, b), j) == Map(f, Drop(b, j))
  {}
}

/** The fingerprint of a filter set: lists are sorted at every depth before hashing. */
module FilterFingerprint {
  import opened Sorting
  import opened TextOrder

  /** A filter value. Numbers are their JSON numerals, floating-point ones included; `AsText` is an
      id, a time or any other value that is turned into text. */
  datatype Json =
    | Null
    | Bool(b: bool)
    | Number(numeral: string)
    | Str(s: string)
    | AsText(text: string)
    | List(items: seq<Json>)
    | Dict(entries: map<string, Json>)

  ghost predicate Injective<S(!new), T>(f: S -> T) {
    forall x, y :: f(x) == f(y) ==> x == y
  }

  /** The sort key: nulls last, then by JSON text. */
  predicate KeyLe(text: Json -> string, a: Json, b: Json) {
    if a.Null? != b.Null? then b.Null? else TextLe(text(a), text(b))
  }

  function ByKey(text: Json -> string): (Json, Json) -> bool {
    (a, b) => KeyLe(text, a, b)
  }

  lemma KeyIsTotal(text: Json -> string)
    requires Injective(text)
    ensures TotalOrder(ByKey(text))
  {
    TextLeIsTotal();
    var le := ByKey(text);
    forall a, b ensures le(a, b) || le(b, a) {}
    forall a, b | le(a, b) && le(b, a) ensures a == b { assert text(a) == text(b); }
    forall a, b, c | le(a, b) && le(b, c) ensures le(a, c) {}
  }

  function Normalize(text: Json -> string, v: Json): Json
    decreases v
  {
    match v
    case List(items) => List(Sort(ByKey(text), seq(|items|, i requires 0 <= i < |items| => Normalize(text, items[i]))))
    case Dict(entries) => Dict(map k | k in entries :: Normalize(text, entries[k]))
    case AsText(t) => Str(t)
    case _ => v
  }

  /** The same value up to the order of lists, at any depth; a value that is turned into text is
      the same as that text. */
  ghost predicate Similar(v: Json, w: Json)
    decreases v
  {
    match v
    case List(items) => w.List? && Matched(items, w.items)
    case Dict(entries) =>
      w.Dict? && w.entries.Keys == entries.Keys && forall k :: k in entries ==> Similar(entries[k], w.entries[k])
    case AsText(t) => w == v || w == Str(t)
    case Str(t) => w == v || w == AsText(t)
    case _ => v == w
  }

  /** The elements of two lists paired off, similar with similar, each used once. */
  ghost predicate Matched(a: seq<Json>, b: seq<Json>)
    decreases a
  {
    if a == [] then b == [] else exists j: nat :: j < |b| && PairedAt(a, b, j)
  }

  ghost predicate PairedAt(a: seq<Json>, b: seq<Json>, j: nat)
    requires a != [] && j < |b|
    decreases a, 0
  {
    Similar(a[0], b[j]) && Matched(a[1..], Drop(b, j))
  }

  function NormalizeAll(text: Json -> string, items: seq<Json>): (r: seq<Json>)
    ensures |r| == |items| && forall i :: 0 <= i < |r| ==> r[i] == Normalize(text, items[i])
  {
    seq(|items|, i requires 0 <= i < |items| => Normalize(text, items[i]))
  }

  lemma NormalizedList(text: Json -> string, items: seq<Json>)
    ensures Normalize(text, List(items)) == List(Sort(ByKey(text), NormalizeAll(text, items)))
  {
    assert NormalizeAll(text, items) == seq(|items|, i requires 0 <= i < |items| => Normalize(text, items[i]));
  }

  lemma NormalizeParts(text: Json -> string, a: seq<Json>, b: seq<Json>, j: nat)
    requires a != [] && j < |b|
    ensures NormalizeAll(text, a)[1..] == NormalizeAll(text, a[1..])
    ensures Drop(NormalizeAll(text, b), j) == NormalizeAll(text, Drop(b, j))
  {}

  /** Two filter values are normalised alike exactly if they differ in the order of lists only. */
  lemma {:induction false} NormalizedAlike(text: Json -> string, v: Json, w: Json)
    requires Injective(text)
    ensures Normalize(text, v) == Normalize(text, w) <==> Similar(v, w)
    decreases v, 0
  {
    match v
    case List(items) =>
      if w.List? {
        MatchedAsBags(text, items, w.items);
        ListsAlike(text, items, w.items);
      }
    case Dict(entries) =>
      if w.Dict? {
        forall k | k in entries && k in w.entries
          ensures Normalize(text, entries[k]) == Normalize(text, w.entries[k]) <==> Similar(entries[k], w.entries[k])
        {
          NormalizedAlike(text, entries[k], w.entries[k]);
        }
        EntriesAlike(text, entries, w.entries);
      }
    case _ =>
  }

  lemma ListsAlike(text: Json -> string, a: seq<Json>, b: seq<Json>)
    requires Injective(text)
    ensures Normalize(text, List(a)) == Normalize(text, List(b)) <==>
              multiset(NormalizeAll(text, a)) == multiset(NormalizeAll(text, b))
  {
    NormalizedList(text, a);
    NormalizedList(text, b);
    KeyIsTotal(text);
    SortedAsBags(ByKey(text), NormalizeAll(text, a), NormalizeAll(text, b));
  }

  lemma EntriesAlike(text: Json -> string, a: map<string, Json>, b: map<string, Json>)
    ensures Normalize(text, Dict(a)) == Normalize(text, Dict(b)) <==>
              a.Keys == b.Keys && forall k :: k in a && k in b ==> Normalize(text, a[k]) == Normalize(text, b[k])
  {
    var m, n := map k | k in a :: Normalize(text, a[k]), map k | k in b :: Normalize(text, b[k]);
    assert Normalize(text, Dict(a)) == Dict(m) && Normalize(text, Dict(b)) == Dict(n);
    assert m.Keys == a.Keys && n.Keys == b.Keys;
    if m == n { forall k | k in a && k in b ensures m[k] == n[k] {} }
  }

  lemma {:induction false} MatchedAsBags(text: Json -> string, a: seq<Json>, b: seq<Json>)
    requires Injective(text)
    ensures multiset(NormalizeAll(text, a)) == multiset(NormalizeAll(text, b)) <==> Matched(a, b)
    decreases a, 1
  {
    if a == [] { EmptyMatch(text, b); }
    else {
      if multiset(NormalizeAll(text, a)) == multiset(NormalizeAll(text, b)) {
        var j := InBag(NormalizeAll(text, a), NormalizeAll(text, b));
        OnePair(text, a, b, j);
        PairIsMatched(a, b, j);
      }
      if Matched(a, b) {
        var j := MatchedPair(a, b);
        OnePair(text, a, b, j);
      }
    }
  }

  lemma EmptyMatch(text: Json -> string, b: seq<Json>)
    ensures multiset(NormalizeAll(text, [])) == multiset(NormalizeAll(text, b)) <==> b == []
  {
    assert |multiset(NormalizeAll(text, b))| == |b| && NormalizeAll(text, []) == [];
  }

  lemma MatchedPair(a: seq<Json>, b: seq<Json>) returns (j: nat)
    requires a != [] && Matched(a, b)
    ensures j < |b| && Similar(a[0], b[j]) && Matched(a[1..], Drop(b, j))
  {
    j :| j < |b| && PairedAt(a, b, j);
  }

  lemma PairIsMatched(a: seq<Json>, b: seq<Json>, j: nat)
    requires a != [] && j < |b| && Similar(a[0], b[j]) && Matched(a[1..], Drop(b, j))
    ensures Matched(a, b)
  {
    assert PairedAt(a, b, j);
  }

  lemma OnePair(text: Json -> string, a: seq<Json>, b: seq<Json>, j: nat)
    requires Injective(text) && a != [] && j < |b|
    ensures Normalize(text, a[0]) == Normalize(text, b[j]) <==> Similar(a[0], b[j])
    ensures Similar(a[0], b[j]) ==>
              (multiset(NormalizeAll(text, a)) == multiset(NormalizeAll(text, b)) <==> Matched(a[1..], Drop(b, j)))
    decreases a, 0
  {
    NormalizedAlike(text, a[0], b[j]);
    NormalizeParts(text, a, b, j);
    MatchedAsBags(text, a[1..], Drop(b, j));
    if Similar(a[0], b[j]) { BagStep(NormalizeAll(text, a), NormalizeAll(text, b), j); }
  }

  /** `digest` stands for hashing the compact JSON text. */
  function Fingerprint(text: Json -> string, digest: Json -> string, v: Json): string {
    digest(Normalize(text, v))
  }

  /** Permuting lists at any depth never changes a filter fingerprint, and with a hash that does
      not collide nothing else leaves it unchanged. */
  lemma FingerprintsAgreeExactly(text: Json -> string, digest: Json -> string, v: Json, w: Json)
    requires Injective(text)
    ensures Similar(v, w) ==> Fingerprint(text, digest, v) == Fingerprint(text, digest, w)
    ensures Injective(digest) ==> (Fingerprint(text, digest, v) == Fingerprint(text, digest, w) <==> Similar(v, w))
  {
    NormalizedAlike(text, v, w);
  }
}

/** The keys under which compose and decompose recognise a repeated request. Hashes are functions
    without collisions. */
module OperationKeys {
  import opened Wrappers
  import opened Sorting
  import opened TextOrder
  import opened FilterFingerprint

  /** What identifies a new memory apart from its tags; numbers are their JSON numerals, which is
      what is hashed. */
  datatype Content = Content(kind: string, title: string, body: string, metadata: string, decisionMeta: string,
                             confidence: string, salience: string, pinned: bool)

  /** `tags` may be missing, which is not the same as none. */
  datatype Child = Child(content: Content, tags: Option<seq<string>>, trigger: string, expiresAt: Option<int>)

  datatype Canonical = Canonical(content: Content, tags: Option<seq<string>>)

  /** A child up to the order of its tags, without trigger text and expiry. */
  datatype Bag = Bag(content: Content, tags: Option<multiset<string>>)

  function SortedTags(tags: Option<seq<string>>): Option<seq<string>> {
    if tags.None? then None else Some(Sort(TextLe, tags.value))
  }

  function CanonicalOf(c: Child): Canonical {
    Canonical(c.content, SortedTags(c.tags))
  }

  function BagOf(c: Child): Bag {
    Bag(c.content, if c.tags.None? then None else Some(multiset(c.tags.value)))
  }

  lemma CanonicalForBag(c: Child, d: Child)
    ensures CanonicalOf(c) == CanonicalOf(d) <==> BagOf(c) == BagOf(d)
  {
    TextLeIsTotal();
    if c.tags.Some? && d.tags.Some? { SortedAsBags(TextLe, c.tags.value, d.tags.value); }
  }

  // ------------------------------------------------------------ decompose

  datatype Decompose = Decompose(env: nat, mode: string, source: nat, children: seq<Child>,
                                 idempotencyKey: Option<string>, expectedVersion: Option<nat>)

  /** The canonical request under its domain separator. */
  datatype Payload = Payload(operation: string, env: nat, mode: string, sources: seq<string>, children: seq<Canonical>)

  /** What makes two decompositions the same. */
  datatype Scope = Scope(env: nat, mode: string, source: nat, children: multiset<Bag>)

  function ScopeOf(r: Decompose): Scope {
    Scope(r.env, r.mode, r.source, multiset(Map(BagOf, r.children)))
  }

  /** Children are ordered by the hash of their canonical form. */
  predicate HashLe(hash: Canonical -> string, a: Canonical, b: Canonical) {
    TextLe(hash(a), hash(b))
  }

  function ByHash(hash: Canonical -> string): (Canonical, Canonical) -> bool {
    (a, b) => HashLe(hash, a, b)
  }

  lemma HashIsTotal(hash: Canonical -> string)
    requires Injective(hash)
    ensures TotalOrder(ByHash(hash))
  {
    TextLeIsTotal();
    var le := ByHash(hash);
    forall a, b ensures le(a, b) || le(b, a) {}
    forall a, b | le(a, b) && le(b, a) ensures a == b { assert hash(a) == hash(b); }
    forall a, b, c | le(a, b) && le(b, c) ensures le(a, c) {}
  }

  function DecomposePayload(hash: Canonical -> string, name: nat -> string, operation: string, r: Decompose): Payload {
    Payload(operation, r.env, r.mode, [name(r.source)], Sort(ByHash(hash), Map(CanonicalOf, r.children)))
  }

  function DecomposeKey(hash: Canonical -> string, name: nat -> string, digest: Payload -> string,
                        r: Decompose): string {
    if r.idempotencyKey.Some? then r.idempotencyKey.value else digest(DecomposePayload(hash, name, "mem_decompose", r))
  }

  function RequestFingerprint(hash: Canonical -> string, name: nat -> string, digest: Payload -> string,
                              r: Decompose): string {
    digest(DecomposePayload(hash, name, "mem_decompose_fp", r))
  }

  /** Canonical payloads are equal exactly for the same scope. */
  lemma PayloadsAgreeExactly(hash: Canonical -> string, name: nat -> string, operation: string, r: Decompose,
                             q: Decompose)
    requires Injective(hash) && Injective(name)
    ensures DecomposePayload(hash, name, operation, r) == DecomposePayload(hash, name, operation, q) <==>
              ScopeOf(r) == ScopeOf(q)
  {
    HashIsTotal(hash);
    var a, b := Map(CanonicalOf, r.children), Map(CanonicalOf, q.children);
    SortedAsBags(ByHash(hash), a, b);
    forall c, d ensures CanonicalOf(c) == CanonicalOf(d) <==> BagOf(c) == BagOf(d) { CanonicalForBag(c, d); }
    if multiset(a) == multiset(b) { SameClasses(CanonicalOf, BagOf, r.children, q.children); }
    if ScopeOf(r) == ScopeOf(q) { SameClasses(BagOf, CanonicalOf, r.children, q.children); }
    assert [name(r.source)] == [name(q.source)] <==> name(r.source) == name(q.source);
  }

  /** The stored fingerprint tells scopes apart exactly: it ignores the order of children and of
      their tags, trigger texts, expiries, the expected version and the caller's key. */
  lemma FingerprintIsScope(hash: Canonical -> string, name: nat -> string, digest: Payload -> string, r: Decompose,
                           q: Decompose)
    requires Injective(hash) && Injective(name) && Injective(digest)
    ensures RequestFingerprint(hash, name, digest, r) == RequestFingerprint(hash, name, digest, q) <==>
              ScopeOf(r) == ScopeOf(q)
  {
    PayloadsAgreeExactly(hash, name, "mem_decompose_fp", r, q);
  }

  /** So does the derived key, when the caller gives none. */
  lemma DecomposeKeyIsScope(hash: Canonical -> string, name: nat -> string, digest: Payload -> string, r: Decompose,
                            q: Decompose)
    requires Injective(hash) && Injective(name) && Injective(digest) && r.idempotencyKey.None? && q.idempotencyKey.None?
    ensures DecomposeKey(hash, name, digest, r) == DecomposeKey(hash, name, digest, q) <==> ScopeOf(r) == ScopeOf(q)
  {
    PayloadsAgreeExactly(hash, name, "mem_decompose", r, q);
  }

  // ------------------------------------------------------------ compose

  datatype Compose = Compose(env: nat, mode: string, sources: seq<nat>, target: Child, idempotencyKey: Option<string>,
                             expectedVersions: map<nat, nat>)

  datatype ComposeScope = ComposeScope(env: nat, mode: string, sources: multiset<nat>, target: Bag)

  function ComposeScopeOf(r: Compose): ComposeScope {
    ComposeScope(r.env, r.mode, multiset(r.sources), BagOf(r.target))
  }

  function ComposePayload(name: nat -> string, r: Compose): Payload {
    Payload("mem_compose", r.env, r.mode, Sort(TextLe, Map(name, r.sources)), [CanonicalOf(r.target)])
  }

  function ComposeKey(name: nat -> string, digest: Payload -> string, r: Compose): string {
    if r.idempotencyKey.Some? then r.idempotencyKey.value else digest(ComposePayload(name, r))
  }

  /** The derived compose key ignores the order of sources and tags, expected versions, trigger
      text and expiry, and nothing else. */
  lemma ComposeKeyIsScope(name: nat -> string, digest: Payload -> string, r: Compose, q: Compose)
    requires Injective(name) && Injective(digest) && r.idempotencyKey.None? && q.idempotencyKey.None?
    ensures ComposeKey(name, digest, r) == ComposeKey(name, digest, q) <==> ComposeScopeOf(r) == ComposeScopeOf(q)
  {
    TextLeIsTotal();
    SortedAsBags(TextLe, Map(name, r.sources), Map(name, q.sources));
    var same := (x: nat) => x;
    assert Map(same, r.sources) == r.sources && Map(same, q.sources) == q.sources;
    if multiset(Map(name, r.sources)) == multiset(Map(name, q.sources)) {
      SameClasses(name, same, r.sources, q.sources);
    }
    if multiset(r.sources) == multiset(q.sources) { SameClasses(same, name, r.sources, q.sources); }
    CanonicalForBag(r.target, q.target);
    assert [CanonicalOf(r.target)] == [CanonicalOf(q.target)] <==> CanonicalOf(r.target) == CanonicalOf(q.target);
    assert ComposePayload(name, r) == ComposePayload(name, q) <==> ComposeScopeOf(r) == ComposeScopeOf(q);
  }

  /** No two of the three kinds of key ever meet. */
  lemma DomainsApart(hash: Canonical -> string, name: nat -> string, digest: Payload -> string, r: Decompose,
                     q: Decompose, c: Compose)
    requires Injective(digest) && r.idempotencyKey.None? && c.idempotencyKey.None?
    ensures DecomposeKey(hash, name, digest, r) != RequestFingerprint(hash, name, digest, q)
    ensures ComposeKey(name, digest, c) != DecomposeKey(hash, name, digest, r)
    ensures ComposeKey(name, digest, c) != RequestFingerprint(hash, name, digest, q)
  {
    assert "mem_decompose" != "mem_decompose_fp" && "mem_compose" != "mem_decompose"
      && "mem_compose" != "mem_decompose_fp" by {
      assert |"mem_compose"| == 11 && |"mem_decompose"| == 13 && |"mem_decompose_fp"| == 16;
    }
  }

  // ------------------------------------------------------------ hashes without collisions exist

  /** A text with its end marked: every character after an 'x', then a point. */
  function Marked(s: string): string {
    if s == "" then "." else ['x', s[0]] + Marked(s[1..])
  }

  /** Marked texts can be told apart from what follows them. */
  lemma {:induction false} MarkedParts(a: string, b: string, x: string, y: string)
    requires Marked(a) + x == Marked(b) + y
    ensures a == b && x == y
  {
    var t, u := Marked(a) + x, Marked(b) + y;
    assert t[0] == (if a == "" then '.' else 'x') && u[0] == if b == "" then '.' else 'x';
    if a == "" {
      assert t[1..] == x && u[1..] == y;
    } else {
      assert t[1] == a[0] && u[1] == b[0];
      assert t[2..] == Marked(a[1..]) + x && u[2..] == Marked(b[1..]) + y;
      MarkedParts(a[1..], b[1..], x, y);
      assert a == [a[0]] + a[1..] && b == [b[0]] + b[1..];
    }
  }

  function MarkedAll(s: seq<string>): string {
    if s == [] then "." else "y" + (Marked(s[0]) + MarkedAll(s[1..]))
  }

  lemma {:induction false} MarkedAllParts(a: seq<string>, b: seq<string>, x: string, y: string)
    requires MarkedAll(a) + x == MarkedAll(b) + y
    ensures a == b && x == y
  {
    var t, u := MarkedAll(a) + x, MarkedAll(b) + y;
    assert t[0] == (if a == [] then '.' else 'y') && u[0] == if b == [] then '.' else 'y';
    if a == [] {
      assert t[1..] == x && u[1..] == y;
    } else {
      assert t[1..] == Marked(a[0]) + (MarkedAll(a[1..]) + x) && u[1..] == Marked(b[0]) + (MarkedAll(b[1..]) + y);
      MarkedParts(a[0], b[0], MarkedAll(a[1..]) + x, MarkedAll(b[1..]) + y);
      MarkedAllParts(a[1..], b[1..], x, y);
      assert a == [a[0]] + a[1..] && b == [b[0]] + b[1..];
    }
  }

  /** The fields of a canonical child as texts, the tags last. */
  function Fields(c: Canonical): seq<string> {
    [c.content.kind, c.content.title, c.content.body, c.content.metadata, c.content.decisionMeta, c.content.confidence,
     c.content.salience, if c.content.pinned then "t" else "f", if c.tags.None? then "n" else "s"]
    + if c.tags.None? then [] else c.tags.value
  }

  lemma FieldsTell(c: Canonical, d: Canonical)
    requires Fields(c) == Fields(d)
    ensures c == d
  {
    var a, b := Fields(c), Fields(d);
    assert a[0] == b[0] && a[1] == b[1] && a[2] == b[2] && a[3] == b[3] && a[4] == b[4] && a[5] == b[5] && a[6] == b[6];
    assert a[7] == b[7] && (a[7] == "t" <==> c.content.pinned) && (b[7] == "t" <==> d.content.pinned);
    assert a[8] == b[8] && (a[8] == "n" <==> c.tags.None?) && (b[8] == "n" <==> d.tags.None?);
    assert a[9..] == b[9..];
    if c.tags.Some? { assert a[9..] == c.tags.value && b[9..] == d.tags.value; }
  }

  function ChildText(c: Canonical): string {
    MarkedAll(Fields(c))
  }

  lemma ChildTextTells(c: Canonical, d: Canonical)
    requires ChildText(c) == ChildText(d)
    ensures c == d
  {
    assert ChildText(c) + "" == ChildText(c) && ChildText(d) + "" == ChildText(d);
    MarkedAllParts(Fields(c), Fields(d), "", "");
    FieldsTell(c, d);
  }

  function Unary(n: nat): string {
    seq(n, _ => '1')
  }

  lemma UnaryTells(m: nat, n: nat)
    requires Unary(m) == Unary(n)
    ensures m == n
  {
    assert |Unary(m)| == m && |Unary(n)| == n;
  }

  function PayloadText(p: Payload): string {
    MarkedAll([p.operation, Unary(p.env), p.mode, MarkedAll(p.sources), MarkedAll(Map(ChildText, p.children))])
  }

  lemma PayloadTextTells(p: Payload, q: Payload)
    requires PayloadText(p) == PayloadText(q)
    ensures p == q
  {
    var a := [p.operation, Unary(p.env), p.mode, MarkedAll(p.sources), MarkedAll(Map(ChildText, p.children))];
    var b := [q.operation, Unary(q.env), q.mode, MarkedAll(q.sources), MarkedAll(Map(ChildText, q.children))];
    assert MarkedAll(a) + "" == MarkedAll(a) && MarkedAll(b) + "" == MarkedAll(b);
    MarkedAllParts(a, b, "", "");
    assert a[0] == b[0] && a[1] == b[1] && a[2] == b[2] && a[3] == b[3] && a[4] == b[4];
    UnaryTells(p.env, q.env);
    assert a[3] + "" == a[3] && b[3] + "" == b[3] && a[4] + "" == a[4] && b[4] + "" == b[4];
    MarkedAllParts(p.sources, q.sources, "", "");
    MarkedAllParts(Map(ChildText, p.children), Map(ChildText, q.children), "", "");
    assert |p.children| == |q.children|;
    forall i | 0 <= i < |p.children| ensures p.children[i] == q.children[i] {
      assert Map(ChildText, p.children)[i] == Map(ChildText, q.children)[i];
      ChildTextTells(p.children[i], q.children[i]);
    }
  }

  /** The assumptions on hashes and names can be met. */
  lemma CollisionFreeHashesExist()
    ensures Injective(ChildText) && Injective(Unary) && Injective(PayloadText)
  {
    forall c, d | ChildText(c) == ChildText(d) ensures c == d { ChildTextTells(c, d); }
    forall m, n | Unary(m) == Unary(n) ensures m == n { UnaryTells(m, n); }
    forall p, q | PayloadText(p) == PayloadText(q) ensures p == q { PayloadTextTells(p, q); }
  }
}
