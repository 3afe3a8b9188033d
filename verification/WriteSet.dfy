/** Canonical write sets and the world-state keys they address (write_set.rs). */
module WriteSet {
  import opened Types
  import opened Sequences
  import opened Order

  type Scope = (string, string, string)
  type Cache = map<string, seq<byte>>

  function ScopeOf(w: PersistentWrite): (r: Scope) {
    (w.channel, w.contract, w.key)
  }

  /** Tuple order: channel, then contract, then key. */
  predicate ScopeBefore(a: Scope, b: Scope) {
    || Before(a.0, b.0)
    || (a.0 == b.0 && Before(a.1, b.1))
    || (a.0 == b.0 && a.1 == b.1 && Before(a.2, b.2))
  }

  lemma ScopeOrder(a: Scope, b: Scope, c: Scope)
    ensures a == b || ScopeBefore(a, b) || ScopeBefore(b, a)
    ensures ScopeBefore(a, b) ==> a != b && !ScopeBefore(b, a)
    ensures ScopeBefore(a, b) && ScopeBefore(b, c) ==> ScopeBefore(a, c)
  {
    BeforeIsTotal(a.0, b.0);
    BeforeIsTotal(a.1, b.1);
    BeforeIsTotal(a.2, b.2);
    if Before(a.0, b.0) { BeforeIsAsymmetric(a.0, b.0); }
    if Before(a.1, b.1) { BeforeIsAsymmetric(a.1, b.1); }
    if Before(a.2, b.2) { BeforeIsAsymmetric(a.2, b.2); }
    if Before(a.0, b.0) && Before(b.0, c.0) { BeforeIsTransitive(a.0, b.0, c.0); }
    if Before(a.1, b.1) && Before(b.1, c.1) { BeforeIsTransitive(a.1, b.1, c.1); }
    if Before(a.2, b.2) && Before(b.2, c.2) { BeforeIsTransitive(a.2, b.2, c.2); }
  }

  // ---------------------------------------------------------------- sorting

  predicate Sorted(ws: seq<PersistentWrite>) {
    forall i, j :: 0 <= i < j < |ws| ==> ScopeBefore(ScopeOf(ws[i]), ScopeOf(ws[j]))
  }

  predicate DistinctScopes(ws: seq<PersistentWrite>) {
    forall i, j :: 0 <= i < j < |ws| ==> ScopeOf(ws[i]) != ScopeOf(ws[j])
  }

  /** `w` placed after every write that is not behind it. */
  function Insert(w: PersistentWrite, sorted: seq<PersistentWrite>): (r: seq<PersistentWrite>)
    ensures multiset(r) == multiset{w} + multiset(sorted)
  {
    if sorted == [] then [w]
    else if ScopeBefore(ScopeOf(w), ScopeOf(sorted[0])) then [w] + sorted
    else
      assert sorted == [sorted[0]] + sorted[1..];
      [sorted[0]] + Insert(w, sorted[1..])
  }

  function SortByScope(ws: seq<PersistentWrite>): (r: seq<PersistentWrite>)
    ensures multiset(r) == multiset(ws)
  {
    if ws == [] then []
    else
      var n := |ws| - 1;
      assert ws == ws[..n] + [ws[n]];
      Insert(ws[n], SortByScope(ws[..n]))
  }

  lemma {:induction false} InsertSorts(w: PersistentWrite, sorted: seq<PersistentWrite>)
    requires Sorted(sorted) && forall v :: v in sorted ==> ScopeOf(v) != ScopeOf(w)
    ensures Sorted(Insert(w, sorted))
  {
    if sorted == [] {
    } else {
      var head, rest := sorted[0], sorted[1..];
      assert head in sorted;
      ScopeOrder(ScopeOf(w), ScopeOf(head), ScopeOf(head));
      if ScopeBefore(ScopeOf(w), ScopeOf(head)) {
        forall v | v in sorted ensures ScopeBefore(ScopeOf(w), ScopeOf(v)) {
          ScopeOrder(ScopeOf(w), ScopeOf(head), ScopeOf(v));
        }
        SortedCons(w, sorted);
      } else {
        InsertSorts(w, rest);
        forall v | v in Insert(w, rest) ensures ScopeBefore(ScopeOf(head), ScopeOf(v)) {
          assert v in multiset(Insert(w, rest));
          assert v == w || v in rest;
        }
        SortedCons(head, Insert(w, rest));
      }
    }
  }

  lemma SortedCons(w: PersistentWrite, sorted: seq<PersistentWrite>)
    requires Sorted(sorted) && forall v :: v in sorted ==> ScopeBefore(ScopeOf(w), ScopeOf(v))
    ensures Sorted([w] + sorted)
  {
    var both := [w] + sorted;
    forall i, j | 0 <= i < j < |both| ensures ScopeBefore(ScopeOf(both[i]), ScopeOf(both[j])) {
      assert both[j] == sorted[j - 1];
      if i > 0 { assert both[i] == sorted[i - 1]; }
    }
  }

  /** Sorting invents no write. */
  lemma SortedMember(ws: seq<PersistentWrite>, v: PersistentWrite) returns (i: nat)
    requires v in SortByScope(ws)
    ensures i < |ws| && ws[i] == v
  {
    assert v in multiset(SortByScope(ws));
    assert v in multiset(ws);
    i :| 0 <= i < |ws| && ws[i] == v;
  }

  /** The last write's scope is in none of the sorted others. */
  lemma LastScopeIsNew(ws: seq<PersistentWrite>, v: PersistentWrite)
    requires ws != [] && DistinctScopes(ws) && v in SortByScope(ws[..|ws| - 1])
    ensures ScopeOf(v) != ScopeOf(ws[|ws| - 1])
  {
    var i := SortedMember(ws[..|ws| - 1], v);
    assert ws[i] == v;
  }

  lemma {:induction false} SortSorts(ws: seq<PersistentWrite>)
    requires DistinctScopes(ws)
    ensures Sorted(SortByScope(ws))
  {
    if ws == [] {
    } else {
      var n := |ws| - 1;
      SortSorts(ws[..n]);
      forall v | v in SortByScope(ws[..n]) ensures ScopeOf(v) != ScopeOf(ws[n]) {
        LastScopeIsNew(ws, v);
      }
      InsertSorts(ws[n], SortByScope(ws[..n]));
    }
  }

  lemma SortedHeadsAgree(xs: seq<PersistentWrite>, ys: seq<PersistentWrite>)
    requires Sorted(xs) && Sorted(ys) && multiset(xs) == multiset(ys) && xs != []
    ensures ys != [] && xs[0] == ys[0]
  {
    assert xs[0] in multiset(ys);
    var i :| 0 <= i < |ys| && ys[i] == xs[0];
    assert ys[0] in multiset(xs);
    var j :| 0 <= j < |xs| && xs[j] == ys[0];
    if i > 0 && j > 0 {
      ScopeOrder(ScopeOf(xs[0]), ScopeOf(ys[0]), ScopeOf(ys[0]));
      assert false;
    }
  }

  /** Two sorted arrangements of the same writes are the same arrangement. */
  lemma {:induction false} SortedIsUnique(xs: seq<PersistentWrite>, ys: seq<PersistentWrite>)
    requires Sorted(xs) && Sorted(ys) && multiset(xs) == multiset(ys)
    ensures xs == ys
  {
    if xs == [] {
      assert |multiset(ys)| == 0;
    } else {
      SortedHeadsAgree(xs, ys);
      assert xs == [xs[0]] + xs[1..] && ys == [ys[0]] + ys[1..];
      assert multiset(xs[1..]) == multiset(xs) - multiset{xs[0]};
      assert multiset(ys[1..]) == multiset(ys) - multiset{ys[0]};
      SortedIsUnique(xs[1..], ys[1..]);
    }
  }

  // ---------------------------------------------------------------- canonicalize

  datatype ExecutionResult = ExecutionResult(ephemeral: seq<(string, seq<byte>)>, writes: seq<PersistentWrite>)

  /** Non-empty scope components and a named collection. */
  predicate WriteSound(w: PersistentWrite) {
    w.channel != "" && w.contract != "" && w.key != "" && (w.visibility.Pdc? ==> w.visibility.collection != "")
  }

  predicate Canonicalizable(ws: seq<PersistentWrite>) {
    (forall i :: 0 <= i < |ws| ==> WriteSound(ws[i])) && DistinctScopes(ws)
  }

  function Canonical(e: ExecutionResult): (r: Result<ExecutionResult>) {
    if Canonicalizable(e.writes) then Success(e.(writes := SortByScope(e.writes))) else Failure(InvalidTransaction)
  }

  /** By channel; within a channel by contract; within a contract by key. */
  predicate Lexicographic(v: PersistentWrite, w: PersistentWrite) {
    if v.channel != w.channel then Before(v.channel, w.channel)
    else if v.contract != w.contract then Before(v.contract, w.contract)
    else Before(v.key, w.key)
  }

  lemma SortedIsLexicographic(ws: seq<PersistentWrite>, i: nat, j: nat)
    requires Sorted(ws) && i < j < |ws|
    ensures Lexicographic(ws[i], ws[j])
  {
    var v, w := ws[i], ws[j];
    assert ScopeBefore(ScopeOf(v), ScopeOf(w));
    if Before(v.channel, w.channel) { BeforeIsAsymmetric(v.channel, w.channel); }
    if Before(v.contract, w.contract) { BeforeIsAsymmetric(v.contract, w.contract); }
  }

  /** No part of a scope is empty, no private write lacks its collection, and no two writes share channel, contract and key. */
  predicate Proper(ws: seq<PersistentWrite>) {
    && (forall i :: 0 <= i < |ws| ==>
          && ws[i].channel != "" && ws[i].contract != "" && ws[i].key != ""
          && (ws[i].visibility.Pdc? ==> ws[i].visibility.collection != ""))
    && forall i, j :: 0 <= i < j < |ws| ==>
         ws[i].channel != ws[j].channel || ws[i].contract != ws[j].contract || ws[i].key != ws[j].key
  }

  lemma ProperIff(ws: seq<PersistentWrite>)
    ensures Canonicalizable(ws) <==> Proper(ws)
  {
    if Proper(ws) {
      forall i, j | 0 <= i < j < |ws| ensures ScopeOf(ws[i]) != ScopeOf(ws[j]) { }
    }
    if DistinctScopes(ws) {
      forall i, j | 0 <= i < j < |ws|
        ensures ws[i].channel != ws[j].channel || ws[i].contract != ws[j].contract || ws[i].key != ws[j].key
      {
        assert ScopeOf(ws[i]) != ScopeOf(ws[j]);
      }
    }
  }

  lemma CanonicalIsLexicographic(e: ExecutionResult)
    ensures Canonical(e).Success? ==>
      var sorted := Canonical(e).value.writes;
      forall i, j :: 0 <= i < j < |sorted| ==> Lexicographic(sorted[i], sorted[j])
  {
    if Canonical(e).Success? {
      var sorted := SortByScope(e.writes);
      SortSorts(e.writes);
      forall i, j | 0 <= i < j < |sorted| ensures Lexicographic(sorted[i], sorted[j]) { SortedIsLexicographic(sorted, i, j); }
    }
  }

  method Canonicalize(e: ExecutionResult) returns (r: Result<ExecutionResult>)
    ensures r == Canonical(e)
    ensures if Proper(e.writes) then r.Success? else r == Failure(InvalidTransaction)
    ensures r.Success? ==> r.value.ephemeral == e.ephemeral && multiset(r.value.writes) == multiset(e.writes)
    ensures r.Success? ==> forall i, j :: 0 <= i < j < |r.value.writes| ==> Lexicographic(r.value.writes[i], r.value.writes[j])
  {
    ProperIff(e.writes);
    CanonicalIsLexicographic(e);
    var seen: set<Scope> := {};
    var ws := e.writes;
    for i := 0 to |ws|
      invariant Canonicalizable(ws[..i])
      invariant seen == set k | 0 <= k < i :: ScopeOf(ws[k])
    {
      var w := ws[i];
      assert ws[..i + 1][i] == w;
      if w.channel == "" {
        return Failure(InvalidTransaction);
      }
      if w.contract == "" {
        return Failure(InvalidTransaction);
      }
      if w.key == "" {
        return Failure(InvalidTransaction);
      }
      if w.visibility.Pdc? && w.visibility.collection == "" {
        return Failure(InvalidTransaction);
      }
      if ScopeOf(w) in seen {
        var k :| 0 <= k < i && ScopeOf(ws[k]) == ScopeOf(w);
        return Failure(InvalidTransaction);
      }
      seen := seen + {ScopeOf(w)};
    }
    assert ws[..|ws|] == ws;
    return Success(e.(writes := SortByScope(ws)));
  }

  lemma CanonicalizablePermutation(xs: seq<PersistentWrite>, ys: seq<PersistentWrite>)
    requires multiset(xs) == multiset(ys) && Canonicalizable(xs)
    ensures Canonicalizable(ys)
  {
    forall i | 0 <= i < |ys| ensures WriteSound(ys[i]) {
      assert ys[i] in multiset(xs);
      var j :| 0 <= j < |xs| && xs[j] == ys[i];
    }
    var scope := (w: PersistentWrite) => Some(ScopeOf(w));
    FilterMapPermutation(scope, xs, ys);
    DistinctPermutation(FilterMap(scope, xs), FilterMap(scope, ys));
    MapScopes(xs);
    MapScopes(ys);
  }

  lemma {:induction false} MapScopes(ws: seq<PersistentWrite>)
    ensures var scopes := FilterMap((w: PersistentWrite) => Some(ScopeOf(w)), ws);
      |scopes| == |ws| && forall i :: 0 <= i < |ws| ==> scopes[i] == ScopeOf(ws[i])
  {
    if ws == [] {
    } else {
      MapScopes(ws[1..]);
    }
  }

  /** All orders of one write list canonicalise alike: all fail, or all give the identical list. */
  lemma CanonicalIgnoresOrder(e: ExecutionResult, shuffled: seq<PersistentWrite>)
    requires multiset(shuffled) == multiset(e.writes)
    ensures Canonical(e) == Canonical(e.(writes := shuffled))
  {
    if Canonicalizable(e.writes) {
      CanonicalizablePermutation(e.writes, shuffled);
      SortSorts(e.writes);
      SortSorts(shuffled);
      SortedIsUnique(SortByScope(e.writes), SortByScope(shuffled));
    } else if Canonicalizable(shuffled) {
      CanonicalizablePermutation(shuffled, e.writes);
    }
  }

  lemma CanonicalIsIdempotent(e: ExecutionResult)
    requires Canonical(e).Success?
    ensures Canonical(Canonical(e).value) == Canonical(e)
  {
    CanonicalIgnoresOrder(e, SortByScope(e.writes));
  }

  // ---------------------------------------------------------------- block form

  /** The form the block carries: private values become commitments. */
  function BlockForm(w: PersistentWrite): (r: PersistentWrite) {
    if w.op.Set? && w.visibility.Pdc? then w.(op := Set(ValueDigest(w.op.value))) else w
  }

  function BlockForms(ws: seq<PersistentWrite>): (r: seq<PersistentWrite>) {
    seq(|ws|, i requires 0 <= i < |ws| => BlockForm(ws[i]))
  }

  lemma BlockFormsCons(w: PersistentWrite, ws: seq<PersistentWrite>)
    ensures BlockForms([w] + ws) == [BlockForm(w)] + BlockForms(ws)
  {
  }

  lemma BlockFormsTail(ws: seq<PersistentWrite>)
    requires ws != []
    ensures |BlockForms(ws)| == |ws| && BlockForms(ws)[0] == BlockForm(ws[0]) && BlockForms(ws)[1..] == BlockForms(ws[1..])
  {
  }

  lemma BlockFormsInit(ws: seq<PersistentWrite>)
    requires ws != []
    ensures |BlockForms(ws)| == |ws| && BlockForms(ws)[|ws| - 1] == BlockForm(ws[|ws| - 1])
    ensures BlockForms(ws)[..|ws| - 1] == BlockForms(ws[..|ws| - 1])
  {
  }

  lemma {:induction false} BlockFormsInsert(w: PersistentWrite, ws: seq<PersistentWrite>)
    ensures BlockForms(Insert(w, ws)) == Insert(BlockForm(w), BlockForms(ws))
  {
    if ws == [] {
    } else {
      var head, rest := ws[0], ws[1..];
      BlockFormsTail(ws);
      if ScopeBefore(ScopeOf(w), ScopeOf(head)) {
        BlockFormsCons(w, ws);
      } else {
        BlockFormsInsert(w, rest);
        BlockFormsCons(head, Insert(w, rest));
      }
    }
  }

  /** Redaction touches no scope, so it commutes with the canonical order. */
  lemma {:induction false} RedactionCommutesWithSort(ws: seq<PersistentWrite>)
    ensures SortByScope(BlockForms(ws)) == BlockForms(SortByScope(ws))
  {
    if ws == [] {
    } else {
      var n := |ws| - 1;
      RedactionCommutesWithSort(ws[..n]);
      BlockFormsInit(ws);
      BlockFormsInsert(ws[n], SortByScope(ws[..n]));
    }
  }

  /** Two private values behind one commitment: a digest collision, in hand. */
  predicate DigestCollision(v: PersistentWrite, w: PersistentWrite) {
    && v.op.Set? && w.op.Set? && v.visibility.Pdc? && w.visibility.Pdc?
    && v.op.value != w.op.value && ValueDigest(v.op.value) == ValueDigest(w.op.value)
  }

  predicate CollisionBetween(xs: seq<PersistentWrite>, ys: seq<PersistentWrite>) {
    exists v, w :: v in xs && w in ys && DigestCollision(v, w)
  }

  /** What the block carries fixes the writes behind it, private values included, or exhibits a collision. */
  lemma BlockFormsBind(xs: seq<PersistentWrite>, ys: seq<PersistentWrite>)
    requires BlockForms(xs) == BlockForms(ys)
    ensures xs == ys || CollisionBetween(xs, ys)
  {
    assert |xs| == |BlockForms(xs)| && |ys| == |BlockForms(ys)|;
    if xs != ys {
      var i :| 0 <= i < |xs| && xs[i] != ys[i];
      assert BlockForms(xs)[i] == BlockForms(ys)[i];
      assert DigestCollision(xs[i], ys[i]);
    }
  }

  /**
   * The canonical write set of a block commits to the private writes: two executions whose redacted,
   * canonical write sets agree made the same writes up to order, or exhibit a digest collision.
   */
  lemma CommittedWritesBind(xs: seq<PersistentWrite>, ys: seq<PersistentWrite>)
    requires SortByScope(BlockForms(xs)) == SortByScope(BlockForms(ys))
    ensures multiset(xs) == multiset(ys) || CollisionBetween(xs, ys)
  {
    RedactionCommutesWithSort(xs);
    RedactionCommutesWithSort(ys);
    var p, q := SortByScope(xs), SortByScope(ys);
    BlockFormsBind(p, q);
    if v, w :| v in p && w in q && DigestCollision(v, w) {
      assert v in multiset(p) && w in multiset(q);
      assert v in multiset(xs) && w in multiset(ys);
    }
  }

  /** The two writes differ at most in private values with one digest. */
  predicate AlikeOutside(v: PersistentWrite, w: PersistentWrite) {
    && v.channel == w.channel && v.contract == w.contract && v.key == w.key && v.visibility == w.visibility
    && (v.op == w.op || (v.visibility.Pdc? && v.op.Set? && w.op.Set? && ValueDigest(v.op.value) == ValueDigest(w.op.value)))
  }

  /** The block depends on private values through their digests only, and on everything else in full. */
  lemma BlockFormsAgreeIff(xs: seq<PersistentWrite>, ys: seq<PersistentWrite>)
    ensures BlockForms(xs) == BlockForms(ys) <==> |xs| == |ys| && forall i :: 0 <= i < |xs| ==> AlikeOutside(xs[i], ys[i])
  {
    assert |BlockForms(xs)| == |xs| && |BlockForms(ys)| == |ys|;
    if BlockForms(xs) == BlockForms(ys) {
      forall i | 0 <= i < |xs| ensures AlikeOutside(xs[i], ys[i]) { assert BlockForms(xs)[i] == BlockForms(ys)[i]; }
    }
  }

  /** `w` as a block shows it: a private value behind its digest, anything else as it is. */
  predicate ShownAs(w: PersistentWrite, shown: PersistentWrite) {
    if w.visibility.Public? || w.op.Delete? then shown == w else shown == w.(op := Set(ValueDigest(w.op.value)))
  }

  /**
   * Executions that differ only in private values with equal digests leave the same committed write set;
   * and what a committed write set holds is each write as a block shows it.
   */
  lemma CommittedWritesHide(xs: seq<PersistentWrite>, ys: seq<PersistentWrite>, shown: PersistentWrite)
    ensures |xs| == |ys| && (forall i :: 0 <= i < |xs| ==> AlikeOutside(xs[i], ys[i])) ==>
      SortByScope(BlockForms(xs)) == SortByScope(BlockForms(ys))
    ensures shown in SortByScope(BlockForms(xs)) <==> exists i :: 0 <= i < |xs| && ShownAs(xs[i], shown)
  {
    BlockFormsAgreeIff(xs, ys);
    var forms := BlockForms(xs);
    assert shown in SortByScope(forms) <==> shown in forms by {
      assert shown in SortByScope(forms) <==> shown in multiset(SortByScope(forms));
      assert shown in forms <==> shown in multiset(forms);
    }
    if i :| 0 <= i < |xs| && ShownAs(xs[i], shown) { assert forms[i] == shown; }
  }

  // ---------------------------------------------------------------- the state cache

  function Joined(s: Scope): (r: string) {
    s.0 + ([':'] + (s.1 + ([':'] + s.2)))
  }

  function StateKey(w: PersistentWrite): (r: string) {
    "ws:" + Joined(ScopeOf(w))
  }

  function ApplyWrite(cache: Cache, w: PersistentWrite): (r: Cache) {
    match w.op
    case Set(value) => cache[StateKey(w) := value]
    case Delete => cache - {StateKey(w)}
  }

  function ApplyWrites(cache: Cache, ws: seq<PersistentWrite>): (r: Cache) {
    if ws == [] then cache else ApplyWrite(ApplyWrites(cache, ws[..|ws| - 1]), ws[|ws| - 1])
  }

  /** No two writes do different things to one state key. */
  predicate Harmonious(ws: seq<PersistentWrite>) {
    forall v, w :: v in ws && w in ws && StateKey(v) == StateKey(w) ==> v.op == w.op
  }

  /** The state key a write addresses. */
  function Address(w: PersistentWrite): (r: string) {
    "ws:" + w.channel + ":" + w.contract + ":" + w.key
  }

  lemma StateKeyIsAddress(w: PersistentWrite)
    ensures StateKey(w) == Address(w)
  {
  }

  /** Write `i` is the last that addresses `key`. */
  predicate IsLastTo(ws: seq<PersistentWrite>, i: nat, key: string) {
    i < |ws| && Address(ws[i]) == key && forall j :: i < j < |ws| ==> Address(ws[j]) != key
  }

  predicate Unwritten(ws: seq<PersistentWrite>, key: string) {
    forall i :: 0 <= i < |ws| ==> Address(ws[i]) != key
  }

  /** What the last write to a key says is what the key reads afterwards; a key nobody writes reads as before. */
  predicate LastWriteWins(cache: Cache, ws: seq<PersistentWrite>, after: Cache, key: string) {
    && (forall i :: 0 <= i < |ws| && IsLastTo(ws, i, key) ==>
          if ws[i].op.Set? then key in after && after[key] == ws[i].op.value else key !in after)
    && (Unwritten(ws, key) ==> (key in after <==> key in cache) && (key in cache ==> after[key] == cache[key]))
  }

  lemma LastPush(rest: seq<PersistentWrite>, last: PersistentWrite, i: nat, key: string)
    ensures IsLastTo(rest + [last], i, key)
       <==> if Address(last) == key then i == |rest| else IsLastTo(rest, i, key)
    ensures Unwritten(rest + [last], key) <==> Unwritten(rest, key) && Address(last) != key
  {
    var all := rest + [last];
    assert all[|rest|] == last && forall j :: 0 <= j < |rest| ==> all[j] == rest[j];
  }

  /** Applying any list of writes, contradictory or not, lets the last write to each key win. */
  lemma {:induction false} ApplyWritesMeaning(cache: Cache, ws: seq<PersistentWrite>, key: string)
    ensures LastWriteWins(cache, ws, ApplyWrites(cache, ws), key)
  {
    if ws == [] {
    } else {
      var n := |ws| - 1;
      var rest, last := ws[..n], ws[n];
      ApplyWritesMeaning(cache, rest, key);
      StateKeyIsAddress(last);
      assert ws == rest + [last];
      LastPush(rest, last, 0, key);
      forall i | 0 <= i < |ws| && IsLastTo(ws, i, key)
        ensures if Address(last) == key then i == n else i < n && ws[i] == rest[i] && IsLastTo(rest, i, key)
      {
        LastPush(rest, last, i, key);
      }
    }
  }

  lemma {:induction false} ApplyWritesConcat(cache: Cache, xs: seq<PersistentWrite>, ys: seq<PersistentWrite>)
    ensures ApplyWrites(cache, xs + ys) == ApplyWrites(ApplyWrites(cache, xs), ys)
    decreases |ys|
  {
    if ys == [] {
      assert xs + ys == xs;
    } else {
      var n := |ys| - 1;
      ApplyWritesConcat(cache, xs, ys[..n]);
      assert (xs + ys)[..|xs + ys| - 1] == xs + ys[..n];
    }
  }

  /** Each key reads what its writes say, or what was there before. */
  predicate Reads(cache: Cache, ws: seq<PersistentWrite>, after: Cache, key: string) {
    && (forall w :: w in ws && StateKey(w) == key ==>
          if w.op.Set? then key in after && after[key] == w.op.value else key !in after)
    && ((forall w :: w in ws ==> StateKey(w) != key) ==>
          (key in after <==> key in cache) && (key in cache ==> after[key] == cache[key]))
  }

  lemma {:induction false} ApplyWritesReads(cache: Cache, ws: seq<PersistentWrite>, key: string)
    requires Harmonious(ws)
    ensures Reads(cache, ws, ApplyWrites(cache, ws), key)
  {
    if ws == [] {
    } else {
      var n := |ws| - 1;
      ApplyWritesReads(cache, ws[..n], key);
      assert ws == ws[..n] + [ws[n]];
      assert ws[n] in ws;
    }
  }

  lemma ReadsDetermine(cache: Cache, xs: seq<PersistentWrite>, ys: seq<PersistentWrite>, a: Cache, b: Cache, key: string)
    requires forall w :: w in xs <==> w in ys
    requires Reads(cache, xs, a, key) && Reads(cache, ys, b, key)
    ensures key in a <==> key in b
    ensures key in a ==> a[key] == b[key]
  {
    if w :| w in xs && StateKey(w) == key {
      assert w in ys;
    }
  }

  /** Writes that do not contradict each other can be applied in any order. */
  lemma OrderOfWritesIsIrrelevant(cache: Cache, xs: seq<PersistentWrite>, ys: seq<PersistentWrite>)
    requires Harmonious(xs) && multiset(xs) == multiset(ys)
    ensures ApplyWrites(cache, xs) == ApplyWrites(cache, ys)
  {
    assert forall w :: w in xs <==> w in multiset(xs);
    assert forall w :: w in ys <==> w in multiset(ys);
    var a, b := ApplyWrites(cache, xs), ApplyWrites(cache, ys);
    forall key ensures (key in a <==> key in b) && (key in a ==> a[key] == b[key]) {
      ApplyWritesReads(cache, xs, key);
      ApplyWritesReads(cache, ys, key);
      ReadsDetermine(cache, xs, ys, a, b, key);
    }
  }

  /** Two writes commute if and only if they address different state keys or do the same thing. */
  lemma TwoWritesCommuteIff(cache: Cache, v: PersistentWrite, w: PersistentWrite)
    ensures ApplyWrite(ApplyWrite(cache, v), w) == ApplyWrite(ApplyWrite(cache, w), v)
       <==> StateKey(v) != StateKey(w) || v.op == w.op
  {
    var a, b := ApplyWrite(ApplyWrite(cache, v), w), ApplyWrite(ApplyWrite(cache, w), v);
    if StateKey(v) == StateKey(w) && v.op != w.op {
      var key := StateKey(v);
      assert key in a <==> w.op.Set?;
      assert key in b <==> v.op.Set?;
      assert w.op.Set? ==> a[key] == w.op.value;
      assert v.op.Set? ==> b[key] == v.op.value;
    }
  }

  /** All orders of a write list give one cache. */
  ghost predicate OrderFree(cache: Cache, ws: seq<PersistentWrite>) {
    forall shuffled :: multiset(shuffled) == multiset(ws) ==> ApplyWrites(cache, shuffled) == ApplyWrites(cache, ws)
  }

  lemma LastTwo(cache: Cache, rest: seq<PersistentWrite>, v: PersistentWrite, w: PersistentWrite)
    ensures ApplyWrites(cache, rest + [v, w]) == ApplyWrite(ApplyWrite(ApplyWrites(cache, rest), v), w)
  {
    var all := rest + [v, w];
    assert all[..|all| - 1] == rest + [v] && (rest + [v])[..|rest|] == rest;
  }

  /** A list split into two of its members and the rest. */
  lemma TakeTwo(ws: seq<PersistentWrite>, i: nat, j: nat) returns (rest: seq<PersistentWrite>)
    requires i < j < |ws|
    ensures multiset(rest + [ws[i], ws[j]]) == multiset(ws) && multiset(rest + [ws[j], ws[i]]) == multiset(ws)
  {
    var a, b, c := ws[..i], ws[i + 1..j], ws[j + 1..];
    assert ws == a + [ws[i]] + b + [ws[j]] + c;
    rest := a + b + c;
  }

  /** Two writes at odds over one key, put last, leave what the last of them says. */
  lemma DiscordShows(cache: Cache, rest: seq<PersistentWrite>, v: PersistentWrite, w: PersistentWrite)
    requires StateKey(v) == StateKey(w) && v.op != w.op
    ensures ApplyWrites(cache, rest + [v, w]) != ApplyWrites(cache, rest + [w, v])
  {
    LastTwo(cache, rest, v, w);
    LastTwo(cache, rest, w, v);
    TwoWritesCommuteIff(ApplyWrites(cache, rest), v, w);
  }

  lemma HarmonyFrees(cache: Cache, ws: seq<PersistentWrite>)
    requires Harmonious(ws)
    ensures OrderFree(cache, ws)
  {
    forall shuffled | multiset(shuffled) == multiset(ws) ensures ApplyWrites(cache, shuffled) == ApplyWrites(cache, ws) {
      OrderOfWritesIsIrrelevant(cache, ws, shuffled);
    }
  }

  lemma DiscordBinds(cache: Cache, ws: seq<PersistentWrite>, i: nat, j: nat)
    requires i < j < |ws| && StateKey(ws[i]) == StateKey(ws[j]) && ws[i].op != ws[j].op
    ensures !OrderFree(cache, ws)
  {
    var rest := TakeTwo(ws, i, j);
    DiscordShows(cache, rest, ws[i], ws[j]);
  }

  /** All orders of a write list give one cache if and only if no two writes do different things to one state key. */
  lemma AllOrdersAgreeIff(cache: Cache, ws: seq<PersistentWrite>)
    ensures OrderFree(cache, ws) <==> Harmonious(ws)
  {
    if Harmonious(ws) {
      HarmonyFrees(cache, ws);
    } else {
      var v, w :| v in ws && w in ws && StateKey(v) == StateKey(w) && v.op != w.op;
      var i, j :| 0 <= i < |ws| && 0 <= j < |ws| && ws[i] == v && ws[j] == w;
      if i < j { DiscordBinds(cache, ws, i, j); } else { DiscordBinds(cache, ws, j, i); }
    }
  }

  // ---------------------------------------------------------------- when state keys are unambiguous

  predicate ColonFree(s: string) {
    ':' !in s
  }

  lemma {:induction false} SplitAtColon(a: string, x: string, b: string, y: string)
    requires ColonFree(a) && ColonFree(b) && a + ([':'] + x) == b + ([':'] + y)
    ensures a == b && x == y
  {
    var p, q := a + ([':'] + x), b + ([':'] + y);
    if a == [] || b == [] {
      assert p[0] == q[0];
      assert a == [] && b == [];
      assert p[1..] == x && q[1..] == y;
    } else {
      assert p[0] == a[0] && q[0] == b[0];
      assert p[1..] == a[1..] + ([':'] + x) && q[1..] == b[1..] + ([':'] + y);
      SplitAtColon(a[1..], x, b[1..], y);
      assert a == [a[0]] + a[1..] && b == [b[0]] + b[1..];
    }
  }

  /** State keys are injective on scopes whose channel and contract hold no colon. */
  lemma JoinedInjective(s: Scope, t: Scope)
    requires ColonFree(s.0) && ColonFree(s.1) && ColonFree(t.0) && ColonFree(t.1) && Joined(s) == Joined(t)
    ensures s == t
  {
    SplitAtColon(s.0, s.1 + ([':'] + s.2), t.0, t.1 + ([':'] + t.2));
    SplitAtColon(s.1, s.2, t.1, t.2);
  }

  /** Non-empty parts, as `canonicalize` demands. */
  predicate SoundScope(s: Scope) {
    s.0 != "" && s.1 != "" && s.2 != ""
  }

  /** A colon at which the scope can be cut differently without emptying a part. */
  predicate Recuttable(s: Scope)
    requires SoundScope(s)
  {
    ':' in s.0[1..] || ':' in s.2[..|s.2| - 1] || (|s.1| >= 2 && ':' in s.1)
  }

  /** Where the two separators of a joined scope stand, and what stands elsewhere. */
  lemma JoinedAt(s: Scope, i: nat)
    requires i < |Joined(s)|
    ensures |Joined(s)| == |s.0| + |s.1| + |s.2| + 2
    ensures Joined(s)[|s.0|] == ':' && Joined(s)[|s.0| + 1 + |s.1|] == ':'
    ensures i < |s.0| ==> Joined(s)[i] == s.0[i]
    ensures |s.0| < i < |s.0| + 1 + |s.1| ==> Joined(s)[i] == s.1[i - |s.0| - 1]
    ensures |s.0| + 1 + |s.1| < i ==> Joined(s)[i] == s.2[i - |s.0| - |s.1| - 2]
  {
  }

  /** Any colon but one at the outer ends is a separator, a one-character contract, or a place to recut. */
  lemma ColonPlaces(s: Scope, i: nat)
    requires SoundScope(s) && 0 < i < |Joined(s)| - 1 && Joined(s)[i] == ':'
    ensures i == |s.0| || i == |s.0| + 1 + |s.1| || (|s.1| == 1 && i == |s.0| + 1) || Recuttable(s)
  {
    JoinedAt(s, i);
    var p, q := |s.0|, |s.0| + 1 + |s.1|;
    if i < p {
      assert s.0[1..][i - 1] == ':';
    } else if p < i < q {
      assert s.1[i - p - 1] == ':';
    } else if q < i {
      assert s.2[..|s.2| - 1][i - q - 1] == ':';
    }
  }

  lemma SameCuts(s: Scope, t: Scope)
    requires Joined(s) == Joined(t) && |s.0| == |t.0| && |s.1| == |t.1|
    ensures s == t
  {
    var j := Joined(s);
    assert s.0 == j[..|s.0|] && t.0 == j[..|t.0|];
    assert s.1 == j[|s.0| + 1..|s.0| + 1 + |s.1|] && t.1 == j[|t.0| + 1..|t.0| + 1 + |t.1|];
    assert s.2 == j[|s.0| + |s.1| + 2..] && t.2 == j[|t.0| + |t.1| + 2..];
  }

  lemma UniqueCut(s: Scope, t: Scope)
    requires SoundScope(s) && !Recuttable(s) && SoundScope(t) && Joined(t) == Joined(s)
    ensures t == s
  {
    var p, q := |t.0|, |t.0| + 1 + |t.1|;
    JoinedAt(t, p);
    ColonPlaces(s, p);
    ColonPlaces(s, q);
    JoinedAt(s, p);
    SameCuts(s, t);
  }

  lemma Recut(s: Scope) returns (t: Scope)
    requires SoundScope(s) && Recuttable(s)
    ensures SoundScope(t) && t != s && Joined(t) == Joined(s)
  {
    if ':' in s.0[1..] {
      var i :| 1 <= i < |s.0| && s.0[i] == ':';
      var x, y := s.0[..i], s.0[i + 1..];
      assert s.0 == x + ([':'] + y);
      t := (x, y + ([':'] + s.1), s.2);
      JoinRegroups(x, y, s.1 + ([':'] + s.2));
      JoinRegroups(y, s.1, s.2);
    } else if ':' in s.2[..|s.2| - 1] {
      var i :| 0 <= i < |s.2| - 1 && s.2[i] == ':';
      var x, y := s.2[..i], s.2[i + 1..];
      assert s.2 == x + ([':'] + y);
      t := (s.0, s.1 + ([':'] + x), y);
      JoinRegroups(s.1, x, y);
    } else {
      var i :| 0 <= i < |s.1| && s.1[i] == ':';
      var x, y := s.1[..i], s.1[i + 1..];
      assert s.1 == x + ([':'] + y);
      JoinRegroups(x, y, s.2);
      if i == 0 {
        t := (s.0 + ([':'] + x), y, s.2);
        JoinRegroups(s.0, x, y + ([':'] + s.2));
      } else {
        t := (s.0, x, y + ([':'] + s.2));
      }
    }
  }

  /**
   * Among scopes `canonicalize` lets through, one shares its state key with another if and only if it
   * holds a colon past the channel's first character, before the key's last, or in a longer contract.
   */
  lemma StateKeyAmbiguousIff(s: Scope)
    requires SoundScope(s)
    ensures (exists t: Scope :: SoundScope(t) && t != s && Joined(t) == Joined(s)) <==> Recuttable(s)
  {
    if Recuttable(s) {
      var t := Recut(s);
    } else {
      forall t: Scope | SoundScope(t) && Joined(t) == Joined(s) ensures t == s { UniqueCut(s, t); }
    }
  }

  lemma JoinRegroups(x: string, y: string, z: string)
    ensures (x + ([':'] + y)) + ([':'] + z) == x + ([':'] + (y + ([':'] + z)))
  {
  }

  lemma JoinedTwoWays(x: string, y: string, z: string, key: string)
    ensures Joined((x, y + ([':'] + z), key)) == Joined((x + ([':'] + y), z, key))
  {
    JoinRegroups(x, y, z + ([':'] + key));
    JoinRegroups(y, z, key);
  }

  lemma TwoSoundWrites(v: PersistentWrite, w: PersistentWrite)
    requires WriteSound(v) && WriteSound(w) && v.channel != w.channel
    ensures Canonicalizable([v, w]) && ScopeOf(v) != ScopeOf(w)
  {
  }

  /** Two writes `canonicalize` lets through side by side, with different scopes and one state key: the order decides the cache. */
  lemma SoundWritesCollide(cache: Cache, x: string, y: string, z: string, key: string, first: WriteOp, second: WriteOp)
    requires x != "" && y != "" && z != "" && key != "" && first != second
    ensures var v := PersistentWrite(x, y + ([':'] + z), key, first, Public);
      var w := PersistentWrite(x + ([':'] + y), z, key, second, Public);
      && Canonicalizable([v, w]) && ScopeOf(v) != ScopeOf(w) && StateKey(v) == StateKey(w)
      && ApplyWrites(cache, [v, w]) != ApplyWrites(cache, [w, v])
  {
    var v, w := PersistentWrite(x, y + ([':'] + z), key, first, Public), PersistentWrite(x + ([':'] + y), z, key, second, Public);
    assert |w.channel| > |v.channel|;
    TwoSoundWrites(v, w);
    JoinedTwoWays(x, y, z, key);
    DiscordShows(cache, [], v, w);
    assert [] + [v, w] == [v, w] && [] + [w, v] == [w, v];
  }

  /** With colon-free channels and contracts, every order of a canonical write list gives one cache. */
  lemma CanonicalWritesCommute(cache: Cache, ws: seq<PersistentWrite>, shuffled: seq<PersistentWrite>)
    requires Canonicalizable(ws) && multiset(shuffled) == multiset(ws)
    requires forall w :: w in ws ==> ColonFree(w.channel) && ColonFree(w.contract)
    ensures ApplyWrites(cache, shuffled) == ApplyWrites(cache, SortByScope(ws)) == ApplyWrites(cache, ws)
  {
    forall v, w | v in ws && w in ws && StateKey(v) == StateKey(w) ensures v.op == w.op {
      assert StateKey(v)[3..] == Joined(ScopeOf(v)) && StateKey(w)[3..] == Joined(ScopeOf(w));
      JoinedInjective(ScopeOf(v), ScopeOf(w));
      var i, j :| 0 <= i < |ws| && 0 <= j < |ws| && ws[i] == v && ws[j] == w;
      assert i == j;
    }
    OrderOfWritesIsIrrelevant(cache, ws, shuffled);
    OrderOfWritesIsIrrelevant(cache, ws, SortByScope(ws));
  }
}
