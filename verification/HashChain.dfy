/** Sealing and verifying the audit log's hash chain. SHA-256 is a function parameter; what is proved
    of tampering assumes it is injective. The Zod schema is the parameter `valid`. */
module HashChain {
  import opened Wrappers
  import Bytes
  import opened CanonicalJson
  import opened JsonReadability

  datatype Entry = Entry(
    id: Str, sequence: nat, timestamp: Str, actor: Json, action: Str, resource: Json, result: Str,
    detail: Json, errorCode: Option<Str>, previousHash: Str, entryHash: Str, timestampToken: Option<Str>)

  type Hash = Str -> Str

  type Schema = Entry -> bool

  ghost predicate Injective(hash: Hash) {
    forall s, t :: hash(s) == hash(t) ==> s == t
  }

  function Genesis(): Str {
    Bytes.Literal("GENESIS")
  }

  // ---------------------------------------------------------------- hashing an entry

  function NatText(n: nat): Str {
    var d := Bytes.Decimal(n);
    seq(|d|, i requires 0 <= i < |d| => d[i] as int)
  }

  function OrNull(s: Option<Str>): Json {
    match s
    case None => JNull
    case Some(t) => JString(t)
  }

  /** The fields that take part in the hash: all but the hash itself and the timestamp token. */
  function HashedFields(e: Entry): seq<Field> {
    [ Field(Bytes.Literal("id"), JString(e.id)),
      Field(Bytes.Literal("sequence"), JNumber(NatText(e.sequence))),
      Field(Bytes.Literal("timestamp"), JString(e.timestamp)),
      Field(Bytes.Literal("actor"), e.actor),
      Field(Bytes.Literal("action"), JString(e.action)),
      Field(Bytes.Literal("resource"), e.resource),
      Field(Bytes.Literal("result"), JString(e.result)),
      Field(Bytes.Literal("detail"), e.detail),
      Field(Bytes.Literal("errorCode"), OrNull(e.errorCode)),
      Field(Bytes.Literal("previousHash"), JString(e.previousHash)) ]
  }

  function HashedText(e: Entry): Str {
    Canonical(JObject(HashedFields(e)))
  }

  function ComputeEntryHash(hash: Hash, e: Entry): Str {
    hash(HashedText(e))
  }

  /** The entry with its chain fields filled in from the entry before it. */
  function SealEntry(hash: Hash, base: Entry, previous: Option<Entry>): Entry {
    var linked := base.(previousHash := if previous.None? then Genesis() else previous.value.entryHash);
    linked.(entryHash := ComputeEntryHash(hash, linked), timestampToken := None)
  }

  // ---------------------------------------------------------------- verification

  datatype Reason = SchemaInvalid | SequenceGap | GenesisMisplaced | PreviousHashMismatch | HashMismatch

  datatype Failing = Failing(sequence: nat, reason: Reason)

  function When(condition: bool, i: nat, reason: Reason): seq<Failing> {
    if condition then [Failing(i, reason)] else []
  }

  /** The failures of the entry at index i. The link to an entry that failed its schema is not checked. */
  function FailuresAt(hash: Hash, valid: Schema, entries: seq<Entry>, i: nat): seq<Failing>
    requires i < |entries|
  {
    var e := entries[i];
    if !valid(e) then [Failing(i, SchemaInvalid)]
    else
      When(e.sequence != i, i, SequenceGap)
      + When(i == 0 && e.previousHash != Genesis(), i, GenesisMisplaced)
      + When(i > 0 && valid(entries[i - 1]) && e.previousHash != entries[i - 1].entryHash, i, PreviousHashMismatch)
      + When(ComputeEntryHash(hash, e) != e.entryHash, i, HashMismatch)
  }

  function Failures(hash: Hash, valid: Schema, entries: seq<Entry>, n: nat): seq<Failing>
    requires n <= |entries|
  {
    if n == 0 then [] else Failures(hash, valid, entries, n - 1) + FailuresAt(hash, valid, entries, n - 1)
  }

  lemma OneMore(hash: Hash, valid: Schema, entries: seq<Entry>, i: nat)
    requires i < |entries|
    ensures Failures(hash, valid, entries, i + 1)
         == Failures(hash, valid, entries, i) + FailuresAt(hash, valid, entries, i)
  {
  }

  /** The four checks of one entry append what its FailuresAt says. */
  lemma ChecksOf(hash: Hash, valid: Schema, entries: seq<Entry>, i: nat, previous: Option<Entry>,
                 a: seq<Failing>, b: seq<Failing>, c: seq<Failing>, d: seq<Failing>)
    requires i < |entries| && valid(entries[i])
    requires previous == if i > 0 && valid(entries[i - 1]) then Some(entries[i - 1]) else None
    requires a == When(entries[i].sequence != i, i, SequenceGap)
    requires b == When(i == 0 && entries[i].previousHash != Genesis(), i, GenesisMisplaced)
    requires c == When(previous.Some? && entries[i].previousHash != previous.value.entryHash, i, PreviousHashMismatch)
    requires d == When(ComputeEntryHash(hash, entries[i]) != entries[i].entryHash, i, HashMismatch)
    ensures Failures(hash, valid, entries, i + 1) == Failures(hash, valid, entries, i) + a + b + c + d
  {
    hide Genesis, ComputeEntryHash, When, Failures;
    assert FailuresAt(hash, valid, entries, i) == a + b + c + d;
    assert Failures(hash, valid, entries, i + 1) == Failures(hash, valid, entries, i) + (a + b + c + d) by {
      OneMore(hash, valid, entries, i);
    }
    hide FailuresAt;
    assert Failures(hash, valid, entries, i) + (a + b + c + d) == Failures(hash, valid, entries, i) + a + b + c + d;
  }

  lemma SchemaFails(hash: Hash, valid: Schema, entries: seq<Entry>, i: nat)
    requires i < |entries| && !valid(entries[i])
    ensures FailuresAt(hash, valid, entries, i) == [Failing(i, SchemaInvalid)]
  {
  }

  method VerifyChain(hash: Hash, valid: Schema, entries: seq<Entry>)
    returns (ok: bool, checked: nat, failures: seq<Failing>)
    ensures failures == Failures(hash, valid, entries, |entries|)
    ensures ok <==> failures == []
    ensures checked == |entries|
  {
    hide Genesis, ComputeEntryHash, FailuresAt;
    failures := [];
    checked := 0;
    var previous: Option<Entry> := None;
    for i := 0 to |entries|
      invariant failures == Failures(hash, valid, entries, i)
      invariant checked == i
      invariant previous == if i > 0 && valid(entries[i - 1]) then Some(entries[i - 1]) else None
    {
      var entry := entries[i];
      checked := checked + 1;
      if !valid(entry) {
        failures := failures + [Failing(i, SchemaInvalid)];
        SchemaFails(hash, valid, entries, i);
        previous := None;
        continue;
      }
      ghost var before := failures;
      ghost var w1 := When(entry.sequence != i, i, SequenceGap);
      ghost var w2 := When(i == 0 && entry.previousHash != Genesis(), i, GenesisMisplaced);
      ghost var w3 := When(previous.Some? && entry.previousHash != previous.value.entryHash, i, PreviousHashMismatch);
      ghost var w4 := When(ComputeEntryHash(hash, entry) != entry.entryHash, i, HashMismatch);
      ChecksOf(hash, valid, entries, i, previous, w1, w2, w3, w4);
      if entry.sequence != i {
        failures := failures + [Failing(i, SequenceGap)];
      }
      assert failures == before + w1;
      if i == 0 {
        if entry.previousHash != Genesis() {
          failures := failures + [Failing(i, GenesisMisplaced)];
        }
        assert failures == before + w1 + w2;
      } else if previous.Some? && entry.previousHash != previous.value.entryHash {
        failures := failures + [Failing(i, PreviousHashMismatch)];
      }
      assert failures == before + w1 + w2 + w3;
      if ComputeEntryHash(hash, entry) != entry.entryHash {
        failures := failures + [Failing(i, HashMismatch)];
      }
      previous := Some(entry);
    }
    ok := |failures| == 0;
  }

  /** The entry at index i is valid, numbered i, linked to the entry before it, and hashed. */
  ghost predicate Linked(hash: Hash, valid: Schema, entries: seq<Entry>, i: nat)
    requires i < |entries|
  {
    && valid(entries[i])
    && entries[i].sequence == i
    && entries[i].previousHash == (if i == 0 then Genesis() else entries[i - 1].entryHash)
    && entries[i].entryHash == ComputeEntryHash(hash, entries[i])
  }

  /** What a chain is, said without the walk. */
  ghost predicate Chain(hash: Hash, valid: Schema, entries: seq<Entry>) {
    forall i :: 0 <= i < |entries| ==> Linked(hash, valid, entries, i)
  }

  lemma NoFailuresAt(hash: Hash, valid: Schema, entries: seq<Entry>, i: nat)
    requires i < |entries| && (i > 0 ==> valid(entries[i - 1]))
    ensures FailuresAt(hash, valid, entries, i) == [] <==> Linked(hash, valid, entries, i)
  {
    hide Genesis, ComputeEntryHash;
  }

  lemma {:induction false} NoFailures(hash: Hash, valid: Schema, entries: seq<Entry>, n: nat)
    requires n <= |entries|
    ensures Failures(hash, valid, entries, n) == [] <==> forall i :: 0 <= i < n ==> Linked(hash, valid, entries, i)
  {
    hide FailuresAt, Genesis, ComputeEntryHash;
    if n > 0 {
      NoFailures(hash, valid, entries, n - 1);
      if Failures(hash, valid, entries, n - 1) == [] {
        assert n > 1 ==> Linked(hash, valid, entries, n - 2);
        NoFailuresAt(hash, valid, entries, n - 1);
      }
    }
  }

  /** Verification succeeds exactly on chains. */
  lemma VerifiesExactlyChains(hash: Hash, valid: Schema, entries: seq<Entry>)
    ensures Failures(hash, valid, entries, |entries|) == [] <==> Chain(hash, valid, entries)
  {
    NoFailures(hash, valid, entries, |entries|);
  }

  /** What is wrong with the entry at index i. Only schema failures are reported of an entry that has one, and links to
      such an entry are not checked. */
  ghost predicate Wrong(hash: Hash, valid: Schema, entries: seq<Entry>, i: nat, reason: Reason)
    requires i < |entries|
  {
    match reason
    case SchemaInvalid => !valid(entries[i])
    case SequenceGap => valid(entries[i]) && entries[i].sequence != i
    case GenesisMisplaced => valid(entries[i]) && i == 0 && entries[i].previousHash != Bytes.Literal("GENESIS")
    case PreviousHashMismatch =>
      && valid(entries[i]) && i > 0 && valid(entries[i - 1])
      && entries[i].previousHash != entries[i - 1].entryHash
    case HashMismatch => valid(entries[i]) && entries[i].entryHash != hash(HashedText(entries[i]))
  }

  lemma {:induction false} FailuresFound(hash: Hash, valid: Schema, entries: seq<Entry>, n: nat, f: Failing)
    requires n <= |entries|
    ensures f in Failures(hash, valid, entries, n) <==>
              f.sequence < n && Wrong(hash, valid, entries, f.sequence, f.reason)
  {
    hide FailuresAt, Wrong;
    if n > 0 {
      FailuresFound(hash, valid, entries, n - 1, f);
      FoundAt(hash, valid, entries, n - 1, f);
    }
  }

  lemma FoundAt(hash: Hash, valid: Schema, entries: seq<Entry>, i: nat, f: Failing)
    requires i < |entries|
    ensures f in FailuresAt(hash, valid, entries, i) <==> f.sequence == i && Wrong(hash, valid, entries, i, f.reason)
  {
    hide HashedText;
  }

  lemma OrderAt(hash: Hash, valid: Schema, entries: seq<Entry>, i: nat)
    requires i < |entries|
    ensures var found := FailuresAt(hash, valid, entries, i);
            InOrder(found) && forall k :: 0 <= k < |found| ==> found[k].sequence == i
  {
    hide Genesis, ComputeEntryHash, When;
    hide InOrder;
    var e := entries[i];
    if valid(e) {
      FourReasons(e.sequence != i, i == 0 && e.previousHash != Genesis(),
                  i > 0 && valid(entries[i - 1]) && e.previousHash != entries[i - 1].entryHash,
                  ComputeEntryHash(hash, e) != e.entryHash, i);
    } else {
      SingleInOrder(Failing(i, SchemaInvalid));
    }
  }

  lemma SingleInOrder(f: Failing)
    ensures InOrder([f])
  {
  }

  lemma FirstReason(p: bool, i: nat)
    ensures UpTo(When(p, i, SequenceGap), i, 1)
  {
  }

  lemma FourReasons(p: bool, q: bool, r: bool, s: bool, i: nat)
    ensures UpTo(When(p, i, SequenceGap) + When(q, i, GenesisMisplaced) + When(r, i, PreviousHashMismatch)
                 + When(s, i, HashMismatch), i, 4)
  {
    hide When, InOrder;
    var a, b, c := When(p, i, SequenceGap), When(q, i, GenesisMisplaced), When(r, i, PreviousHashMismatch);
    FirstReason(p, i);
    hide UpTo;
    AppendReason(a, q, i, GenesisMisplaced);
    AppendReason(a + b, r, i, PreviousHashMismatch);
    AppendReason(a + b + c, s, i, HashMismatch);
  }

  function Number(reason: Reason): nat {
    match reason
    case SchemaInvalid => 0
    case SequenceGap => 1
    case GenesisMisplaced => 2
    case PreviousHashMismatch => 3
    case HashMismatch => 4
  }

  ghost predicate UpTo(found: seq<Failing>, i: nat, last: nat) {
    InOrder(found) && forall k :: 0 <= k < |found| ==> found[k].sequence == i && Number(found[k].reason) <= last
  }

  lemma AppendReason(found: seq<Failing>, condition: bool, i: nat, reason: Reason)
    requires Number(reason) > 0 && UpTo(found, i, Number(reason) - 1)
    ensures UpTo(found + When(condition, i, reason), i, Number(reason))
  {
  }

  ghost predicate InOrder(found: seq<Failing>) {
    forall k, l :: 0 <= k < l < |found| ==> found[k].sequence <= found[l].sequence && found[k] != found[l]
  }

  lemma InOrderAppend(a: seq<Failing>, b: seq<Failing>, i: nat)
    requires InOrder(a) && InOrder(b)
    requires (forall k :: 0 <= k < |a| ==> a[k].sequence < i) && (forall k :: 0 <= k < |b| ==> b[k].sequence == i)
    ensures InOrder(a + b)
  {
  }

  lemma {:induction false} FailuresInOrder(hash: Hash, valid: Schema, entries: seq<Entry>, n: nat)
    requires n <= |entries|
    ensures InOrder(Failures(hash, valid, entries, n))
  {
    hide FailuresAt, Wrong;
    if n > 0 {
      var before := Failures(hash, valid, entries, n - 1);
      FailuresInOrder(hash, valid, entries, n - 1);
      OrderAt(hash, valid, entries, n - 1);
      forall k | 0 <= k < |before| ensures before[k].sequence < n - 1 {
        FailuresFound(hash, valid, entries, n - 1, before[k]);
      }
      InOrderAppend(before, FailuresAt(hash, valid, entries, n - 1), n - 1);
    }
  }

  /** Verification reports exactly what is wrong, each failure once, at its entry and in the order of the entries. */
  lemma FailuresMeaning(hash: Hash, valid: Schema, entries: seq<Entry>)
    ensures forall i: nat, reason :: Failing(i, reason) in Failures(hash, valid, entries, |entries|) <==>
              i < |entries| && Wrong(hash, valid, entries, i, reason)
    ensures InOrder(Failures(hash, valid, entries, |entries|))
  {
    hide Failures, Wrong;
    forall i: nat, reason
      ensures Failing(i, reason) in Failures(hash, valid, entries, |entries|) <==>
                i < |entries| && Wrong(hash, valid, entries, i, reason)
    {
      FailuresFound(hash, valid, entries, |entries|, Failing(i, reason));
    }
    FailuresInOrder(hash, valid, entries, |entries|);
  }

  /** A sealed entry says what its base says, is linked to the entry before it or to the word GENESIS, has the hash of
      its own text, and no token yet. */
  lemma SealGives(hash: Hash, base: Entry, previous: Option<Entry>)
    ensures var e := SealEntry(hash, base, previous);
            && e == base.(previousHash := e.previousHash, entryHash := e.entryHash, timestampToken := None)
            && e.previousHash == (if previous.Some? then previous.value.entryHash else Bytes.Literal("GENESIS"))
            && e.entryHash == hash(HashedText(e))
  {
    var linked := base.(previousHash := if previous.None? then Genesis() else previous.value.entryHash);
    assert HashedFields(SealEntry(hash, base, previous)) == HashedFields(linked);
  }

  /** Sealing a valid entry with the next sequence number extends a chain. */
  lemma SealExtends(hash: Hash, valid: Schema, entries: seq<Entry>, base: Entry, token: Option<Str>)
    requires Chain(hash, valid, entries) && base.sequence == |entries|
    requires var sealed := SealEntry(hash, base, if entries == [] then None else Some(entries[|entries| - 1]));
             valid(sealed.(timestampToken := token))
    ensures var sealed := SealEntry(hash, base, if entries == [] then None else Some(entries[|entries| - 1]));
            Chain(hash, valid, entries + [sealed.(timestampToken := token)])
  {
    var sealed := SealEntry(hash, base, if entries == [] then None else Some(entries[|entries| - 1]));
    var c := entries + [sealed.(timestampToken := token)];
    assert HashedFields(c[|entries|]) == HashedFields(base.(previousHash := sealed.previousHash));
    hide HashedFields, Genesis;
    forall i | 0 <= i < |c| ensures Linked(hash, valid, c, i) {
      if i < |entries| {
        assert Linked(hash, valid, entries, i);
        assert c[i] == entries[i] && (i > 0 ==> c[i - 1] == entries[i - 1]);
      }
    }
  }

  // ---------------------------------------------------------------- tamper evidence

  ghost predicate WellFormedEntry(e: Entry) {
    WellFormed(e.actor) && WellFormed(e.resource) && WellFormed(e.detail)
  }

  ghost predicate WellFormedEntries(entries: seq<Entry>) {
    forall i :: 0 <= i < |entries| ==> WellFormedEntry(entries[i])
  }

  /** The same entry, timestamp token aside. */
  ghost predicate Agree(a: Entry, b: Entry) {
    && a.id == b.id && a.sequence == b.sequence && a.timestamp == b.timestamp
    && Same(a.actor, b.actor) && a.action == b.action && Same(a.resource, b.resource)
    && a.result == b.result && Same(a.detail, b.detail) && a.errorCode == b.errorCode
    && a.previousHash == b.previousHash && a.entryHash == b.entryHash
  }

  lemma NatTextInjective(m: nat, n: nat)
    ensures NumberText(NatText(m))
    ensures NatText(m) == NatText(n) ==> m == n
  {
    Bytes.ParsePrintDecimal(m);
    Bytes.ParsePrintDecimal(n);
    var c, d := Bytes.Decimal(m), Bytes.Decimal(n);
    assert forall i :: 0 <= i < |c| ==> NatText(m)[i] == c[i];
    if NatText(m) == NatText(n) {
      assert |c| == |d| && forall i :: 0 <= i < |c| ==> c[i] == NatText(m)[i] == NatText(n)[i] == d[i];
      assert c == d;
    }
  }

  lemma HashedWellFormed(e: Entry)
    requires WellFormedEntry(e)
    ensures WellFormed(JObject(HashedFields(e)))
  {
    NatTextInjective(e.sequence, e.sequence);
    hide NatText, OrNull;
    KeysDistinct(e);
    forall i | 0 <= i < 10 ensures WellFormed(HashedFields(e)[i].value) {
      NullableWellFormed(e.errorCode);
    }
  }

  lemma NullableWellFormed(s: Option<Str>)
    ensures WellFormed(OrNull(s))
  {
  }

  lemma KeysDistinct(e: Entry)
    ensures DistinctKeys(HashedFields(e))
  {
    var f := HashedFields(e);
    assert |f[0].key| == 2 && |f[1].key| == 8 && |f[2].key| == 9 && |f[3].key| == 5 && |f[4].key| == 6;
    assert |f[5].key| == 8 && |f[6].key| == 6 && |f[7].key| == 6 && |f[8].key| == 9 && |f[9].key| == 12;
    assert f[1].key[0] == 115 && f[5].key[0] == 114 && f[2].key[0] == 116 && f[8].key[0] == 101;
    assert f[4].key[0] == 97 && f[6].key[0] == 114 && f[7].key[0] == 100;
  }

  lemma LookupAt(f: seq<Field>, i: nat)
    requires DistinctKeys(f) && i < |f|
    ensures f[i].key in Keys(f) && Lookup(f, f[i].key) == f[i].value
  {
    assert Keys(f)[i] == f[i].key;
    var j :| 0 <= j < |f| && f[j] == Field(f[i].key, Lookup(f, f[i].key));
  }

  /** The same object with keys in the same places has the same values there. */
  lemma SameAt(f: seq<Field>, g: seq<Field>, i: nat)
    requires DistinctKeys(f) && DistinctKeys(g) && i < |f| && i < |g|
    requires f[i].key == g[i].key && Same(JObject(f), JObject(g))
    ensures Same(f[i].value, g[i].value)
  {
    LookupAt(f, i);
    LookupAt(g, i);
  }

  /** Entries with the same hashed text and the same hash field agree on everything that was hashed. */
  lemma TextBinds(a: Entry, b: Entry)
    requires WellFormedEntry(a) && WellFormedEntry(b)
    requires HashedText(a) == HashedText(b) && a.entryHash == b.entryHash
    ensures Agree(a, b)
  {
    var f, g := HashedFields(a), HashedFields(b);
    HashedWellFormed(a);
    HashedWellFormed(b);
    CanonicalInjective(JObject(f), JObject(g));
    forall i | 0 <= i < 10 ensures Same(f[i].value, g[i].value) {
      KeysDistinct(a);
      KeysDistinct(b);
      hide Lookup, Keys, Canonical, Same, NatText, OrNull;
      SameAt(f, g, i);
    }
    FieldsAgree(a, b);
  }

  /** With an injective hash, entries with the same hash agree on everything that was hashed. */
  lemma HashBinds(hash: Hash, a: Entry, b: Entry)
    requires Injective(hash) && WellFormedEntry(a) && WellFormedEntry(b)
    requires a.entryHash == b.entryHash == ComputeEntryHash(hash, a) == ComputeEntryHash(hash, b)
    ensures Agree(a, b)
  {
    hide HashedText, WellFormedEntry, Agree;
    TextBinds(a, b);
  }

  lemma SameScalar(v: Json, w: Json)
    requires Same(v, w) && !v.JArray? && !v.JObject?
    ensures v == w
  {
  }

  lemma FieldsAgree(a: Entry, b: Entry)
    requires a.entryHash == b.entryHash
    requires forall i :: 0 <= i < 10 ==> Same(HashedFields(a)[i].value, HashedFields(b)[i].value)
    ensures Agree(a, b)
  {
    hide Same, NatText, OrNull;
    var f, g := HashedFields(a), HashedFields(b);
    SameScalar(f[0].value, g[0].value);
    SameScalar(f[1].value, g[1].value);
    SameScalar(f[2].value, g[2].value);
    assert Same(f[3].value, g[3].value);
    SameScalar(f[4].value, g[4].value);
    assert Same(f[5].value, g[5].value);
    SameScalar(f[6].value, g[6].value);
    assert Same(f[7].value, g[7].value);
    NullableScalar(a.errorCode, b.errorCode);
    assert Same(f[8].value, g[8].value);
    SameScalar(f[9].value, g[9].value);
    NatTextInjective(a.sequence, b.sequence);
  }

  lemma NullableScalar(s: Option<Str>, t: Option<Str>)
    ensures Same(OrNull(s), OrNull(t)) ==> s == t
  {
  }

  /** Two different texts that were hashed, one for each log, have the same hash. */
  ghost predicate Collision(hash: Hash, a: seq<Entry>, b: seq<Entry>) {
    exists i, j :: 0 <= i < |a| && 0 <= j < |b|
      && HashedText(a[i]) != HashedText(b[j]) && hash(HashedText(a[i])) == hash(HashedText(b[j]))
  }

  /** Linked entries with the same hash agree, or their texts collide. */
  lemma LinkedBind(hash: Hash, valid: Schema, a: seq<Entry>, b: seq<Entry>, i: nat, j: nat)
    requires WellFormedEntries(a) && WellFormedEntries(b) && Chain(hash, valid, a) && Chain(hash, valid, b)
    requires i < |a| && j < |b| && a[i].entryHash == b[j].entryHash
    ensures Collision(hash, a, b) || (Agree(a[i], b[j]) && i == j)
  {
    hide HashedText, WellFormedEntry, Genesis, Same;
    assert Linked(hash, valid, a, i) && Linked(hash, valid, b, j);
    if HashedText(a[i]) == HashedText(b[j]) {
      TextBinds(a[i], b[j]);
    }
  }

  /** Chains that share a hash at an index agree up to it, or some of their texts collide. */
  lemma {:induction false} AgreeUpTo(hash: Hash, valid: Schema, a: seq<Entry>, b: seq<Entry>, i: nat)
    requires WellFormedEntries(a) && WellFormedEntries(b) && Chain(hash, valid, a) && Chain(hash, valid, b)
    requires i < |a| && i < |b| && a[i].entryHash == b[i].entryHash
    ensures Collision(hash, a, b) || forall j :: 0 <= j <= i ==> Agree(a[j], b[j])
  {
    hide Collision, WellFormedEntry, Genesis, ComputeEntryHash, Same;
    LinkedBind(hash, valid, a, b, i, i);
    if i > 0 {
      assert Linked(hash, valid, a, i) && Linked(hash, valid, b, i);
      if Agree(a[i], b[i]) {
        AgreeUpTo(hash, valid, a, b, i - 1);
      }
    }
  }

  /** Tamper evidence for any hash function: two logs that verify and end in the same hash have the same length and
      agree at every index on every field but the timestamp token, or among their entries are two whose different
      texts have the same hash. */
  lemma CollisionOrAgree(hash: Hash, valid: Schema, a: seq<Entry>, b: seq<Entry>)
    requires WellFormedEntries(a) && WellFormedEntries(b)
    requires Failures(hash, valid, a, |a|) == [] && Failures(hash, valid, b, |b|) == []
    requires a != [] && b != [] && a[|a| - 1].entryHash == b[|b| - 1].entryHash
    ensures Collision(hash, a, b) || (|a| == |b| && forall i :: 0 <= i < |a| ==> Agree(a[i], b[i]))
  {
    hide Failures, WellFormedEntries, Linked, Agree, Collision, Chain;
    VerifiesExactlyChains(hash, valid, a);
    VerifiesExactlyChains(hash, valid, b);
    LinkedBind(hash, valid, a, b, |a| - 1, |b| - 1);
    if |a| == |b| {
      AgreeUpTo(hash, valid, a, b, |a| - 1);
    }
  }

  /** With an injective hash nothing collides, so no earlier entry can be altered, removed or reordered under an
      unchanged final hash. */
  lemma TamperEvidence(hash: Hash, valid: Schema, a: seq<Entry>, b: seq<Entry>)
    requires Injective(hash) && WellFormedEntries(a) && WellFormedEntries(b)
    requires Failures(hash, valid, a, |a|) == [] && Failures(hash, valid, b, |b|) == []
    requires a != [] && b != [] && a[|a| - 1].entryHash == b[|b| - 1].entryHash
    ensures |a| == |b|
    ensures forall i :: 0 <= i < |a| ==> Agree(a[i], b[i])
  {
    hide Failures, WellFormedEntries, Agree, HashedText;
    CollisionOrAgree(hash, valid, a, b);
  }

  /** The heartbeat that checks only the last entry says less: it accepts any self-consistent tail. */
  predicate VerifyTail(hash: Hash, entries: seq<Entry>) {
    entries == [] || ComputeEntryHash(hash, entries[|entries| - 1]) == entries[|entries| - 1].entryHash
  }

  lemma ChainTail(hash: Hash, valid: Schema, entries: seq<Entry>)
    requires Chain(hash, valid, entries)
    ensures VerifyTail(hash, entries)
  {
    if entries != [] {
      assert Linked(hash, valid, entries, |entries| - 1);
    }
  }
}
