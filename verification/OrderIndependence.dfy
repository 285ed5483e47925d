/** The order of keys plays no part in what fromJson returns, at any depth: texts whose objects list
    their members in other orders, in any layout, load to the same configuration. */
module OrderIndependence {
  import opened Results
  import opened JsonText
  import opened JsonRecords
  import opened JsonDocuments
  import opened ReadingDocuments
  import opened AcceptedDocuments
  import opened VMConfigurations
  import opened ConfigurationRoundTrip
  import opened ConfigurationFold

  // ---------- values up to the order of fields ----------

  /** w is v, except that the fields of records, at any depth, may stand in another order. */
  ghost predicate SameValue(v: Value, w: Value)
    decreases v, 0
  {
    match v
    case Record(fields) => w.Record? && SameFields(fields, w.fields)
    case List(items) => w.List? && SameItems(items, w.items)
    case _ => v == w
  }

  /** Some permutation of b has the keys of a, and the same values. */
  ghost predicate SameFields(a: seq<Field>, b: seq<Field>)
    decreases a, 1
  {
    exists c :: Permuted(c, b) && Alike(a, c)
  }

  ghost predicate Alike(a: seq<Field>, c: seq<Field>)
    decreases a, 0
  {
    |a| == |c| && forall i | 0 <= i < |a| :: a[i].key == c[i].key && SameValue(a[i].value, c[i].value)
  }

  ghost predicate SameItems(a: seq<Value>, b: seq<Value>)
    decreases a, 0
  {
    |a| == |b| && forall i | 0 <= i < |a| :: SameValue(a[i], b[i])
  }

  /** No record has a key twice. */
  predicate NoKeyTwice(v: Value)
    decreases v
  {
    match v
    case Record(fields) => DistinctKeys(fields) && forall i | 0 <= i < |fields| :: NoKeyTwice(fields[i].value)
    case List(items) => forall i | 0 <= i < |items| :: NoKeyTwice(items[i])
    case _ => true
  }

  // ---------- the same configuration ----------

  lemma {:induction false} FoldAlike<C(!new)>(apply: (C, Field) -> C, c: C, a: seq<Field>, b: seq<Field>)
    requires |a| == |b| && forall s, i | 0 <= i < |a| :: apply(s, a[i]) == apply(s, b[i])
    ensures Fold(apply, c, a) == Fold(apply, c, b)
  {
    if a != [] {
      var n := |a| - 1;
      FoldAlike(apply, c, a[..n], b[..n]);
      assert apply(Fold(apply, c, a[..n]), a[n]) == apply(Fold(apply, c, a[..n]), b[n]);
    }
  }

  /** Fields whose values are records or lists change nothing. */
  ghost predicate LooksAtScalars<C(!new)>(apply: (C, Field) -> C) {
    forall s, f: Field :: !IsScalar(f.value) ==> apply(s, f) == s
  }

  predicate IsScalar(v: Value) {
    v.Text? || v.Number? || v.Flag?
  }

  lemma FoldOfAlike<C(!new)>(apply: (C, Field) -> C, s: C, a: seq<Field>, c: seq<Field>)
    requires Alike(a, c) && LooksAtScalars(apply)
    ensures Fold(apply, s, a) == Fold(apply, s, c)
  {
    hide Fold;
    FoldAlike(apply, s, a, c);
  }

  lemma RecordsLookAtScalars()
    ensures LooksAtScalars(ApplyCpu) && LooksAtScalars(ApplyMemory) && LooksAtScalars(ApplyStorage)
    ensures LooksAtScalars(ApplyBoot) && LooksAtScalars(ApplyNetwork)
  {
  }

  /** The five records look at texts, numbers and flags only. */
  lemma SameRecords(a: seq<Field>, b: seq<Field>)
    requires SameFields(a, b)
    ensures CpuOf(a) == CpuOf(b) && MemoryOf(a) == MemoryOf(b) && StorageOf(a) == StorageOf(b)
    ensures BootOf(a) == BootOf(b) && NetworkOf(a) == NetworkOf(b)
  {
    hide CpuOf, MemoryOf, StorageOf, BootOf, NetworkOf, Permuted;
    var c :| Permuted(c, b) && Alike(a, c);
    PermutedCpu(c, b);
    PermutedMemory(c, b);
    PermutedStorage(c, b);
    PermutedBoot(c, b);
    PermutedNetwork(c, b);
    AlikeRecords(a, c);
  }

  lemma AlikeRecords(a: seq<Field>, c: seq<Field>)
    requires Alike(a, c)
    ensures CpuOf(a) == CpuOf(c) && MemoryOf(a) == MemoryOf(c) && StorageOf(a) == StorageOf(c)
    ensures BootOf(a) == BootOf(c) && NetworkOf(a) == NetworkOf(c)
  {
    hide ApplyCpu, ApplyMemory, ApplyStorage, ApplyBoot, ApplyNetwork, Fold, LooksAtScalars, Alike;
    RecordsLookAtScalars();
    FoldOfAlike(ApplyCpu, DEFAULT_CPU, a, c);
    FoldOfAlike(ApplyMemory, DEFAULT_MEMORY, a, c);
    FoldOfAlike(ApplyStorage, DEFAULT_STORAGE, a, c);
    FoldOfAlike(ApplyBoot, DEFAULT_BOOT, a, c);
    FoldOfAlike(ApplyNetwork, DEFAULT_NETWORK, a, c);
  }

  lemma SameLists(a: seq<Value>, b: seq<Value>)
    requires SameItems(a, b)
    ensures StoragesOf(a) == StoragesOf(b) && NetworksOf(a) == NetworksOf(b)
  {
    hide StorageOf, NetworkOf, SameFields;
    forall i | 0 <= i < |a|
      ensures StorageOf(FieldsOfItem(a[i])) == StorageOf(FieldsOfItem(b[i]))
      ensures NetworkOf(FieldsOfItem(a[i])) == NetworkOf(FieldsOfItem(b[i]))
    {
      if a[i].Record? {
        SameRecords(a[i].fields, b[i].fields);
      }
    }
  }

  lemma ApplySame(s: VMConfiguration, f: Field, g: Field)
    requires f.key == g.key && SameValue(f.value, g.value)
    ensures ApplyVM(s, f) == ApplyVM(s, g)
  {
    hide CpuOf, MemoryOf, BootOf, StoragesOf, NetworksOf, SameFields, SameItems;
    if f.value.Record? {
      SameRecords(f.value.fields, g.value.fields);
    } else if f.value.List? {
      SameLists(f.value.items, g.value.items);
    }
  }

  /** Fields that are the same up to their order give the same configuration. */
  lemma SameConfiguration(a: seq<Field>, b: seq<Field>)
    requires SameFields(a, b)
    ensures VMOf(a) == VMOf(b)
  {
    hide ApplyVM, Permuted, SameValue, Fold;
    var c :| Permuted(c, b) && Alike(a, c);
    OrderIsIrrelevant(c, b);
    forall s, i | 0 <= i < |a| ensures ApplyVM(s, a[i]) == ApplyVM(s, c[i]) {
      ApplySame(s, a[i], c[i]);
    }
    FoldAlike(ApplyVM, DEFAULT_VM, a, c);
  }

  // ---------- documents up to the order of members ----------

  /** b has the members of a, at every depth, in any order and any layout; elements of arrays stay
      in their places. */
  ghost predicate Reordered(a: Document, b: Document)
    decreases a, 0
  {
    match a
    case Object(ms, _) => b.Object? && AllSpace(b.close) && MembersReordered(ms, b.members)
    case Array(es, _) => b.Array? && AllSpace(b.close) && ElementsReordered(es, b.elements)
    case _ => a == b
  }

  ghost predicate MembersReordered(a: seq<Member>, b: seq<Member>)
    decreases a, 1
  {
    exists c :: multiset(c) == multiset(b) && MembersLike(a, c)
  }

  ghost predicate MembersLike(a: seq<Member>, c: seq<Member>)
    decreases a, 0
  {
    |a| == |c| && forall i | 0 <= i < |a| :: MemberLike(a[i], c[i])
  }

  ghost predicate MemberLike(m: Member, n: Member)
    decreases m
  {
    && m.key == n.key && Reordered(m.value, n.value)
    && AllSpace(n.pre) && AllSpace(n.mid) && AllSpace(n.gap) && AllSpace(n.post)
  }

  ghost predicate ElementsReordered(a: seq<Element>, b: seq<Element>)
    decreases a, 0
  {
    |a| == |b| && forall i | 0 <= i < |a| ::
      AllSpace(b[i].pre) && AllSpace(b[i].post) && Reordered(a[i].value, b[i].value)
  }

  /** All members fit and are read without error. */
  ghost predicate EachRead(schema: Schema, ms: seq<Member>) {
    forall i | 0 <= i < |ms| :: MemberFits(schema, ms[i]) && ReadMember(schema, ms[i]).Success?
  }

  function FieldOf(schema: Schema, m: Member): Field {
    if MemberFits(schema, m) && ReadMember(schema, m).Success? then ReadMember(schema, m).value else Field("", Unread)
  }

  function FieldsOf(schema: Schema, ms: seq<Member>): (fields: seq<Field>)
    ensures |fields| == |ms| && forall i | 0 <= i < |ms| :: fields[i] == FieldOf(schema, ms[i])
  {
    seq(|ms|, i requires 0 <= i < |ms| => FieldOf(schema, ms[i]))
  }

  lemma {:induction false} ReadEach(schema: Schema, ms: seq<Member>)
    ensures EachRead(schema, ms) <==> MembersFit(schema, ms) && ReadMembers(schema, ms).Success?
    ensures EachRead(schema, ms) ==> ReadMembers(schema, ms).value == FieldsOf(schema, ms)
  {
    if ms != [] {
      hide EachRead, MemberFits, ReadMember, FieldsOf;
      ReadEach(schema, ms[1..]);
      EachReadSplits(schema, ms);
      FieldsOfSplits(schema, ms);
    }
  }

  lemma FieldsOfSplits(schema: Schema, ms: seq<Member>)
    requires ms != []
    ensures FieldsOf(schema, ms) == [FieldOf(schema, ms[0])] + FieldsOf(schema, ms[1..])
  {
    hide FieldOf;
  }

  lemma EachReadSplits(schema: Schema, ms: seq<Member>)
    requires ms != []
    ensures EachRead(schema, ms) <==>
            MemberFits(schema, ms[0]) && ReadMember(schema, ms[0]).Success? && EachRead(schema, ms[1..])
  {
    hide MemberFits, ReadMember;
    assert forall i | 0 <= i < |ms| - 1 :: ms[1..][i] == ms[i + 1];
    assert forall i | 1 <= i < |ms| :: ms[i] == ms[1..][i - 1];
  }

  lemma TakeOut<T>(s: seq<T>, i: nat)
    requires i < |s|
    ensures multiset(s) == multiset(s[..i] + s[i + 1..]) + multiset{s[i]}
  {
    assert s == s[..i] + ([s[i]] + s[i + 1..]);
  }

  lemma FieldsWithout(schema: Schema, ms: seq<Member>, i: nat)
    requires i < |ms|
    ensures multiset(FieldsOf(schema, ms)) ==
            multiset(FieldsOf(schema, ms[..i] + ms[i + 1..])) + multiset{FieldOf(schema, ms[i])}
  {
    hide FieldOf;
    var fields := FieldsOf(schema, ms);
    TakeOut(fields, i);
    assert FieldsOf(schema, ms[..i] + ms[i + 1..]) == fields[..i] + fields[i + 1..];
  }

  lemma Cancel<T>(a: multiset<T>, b: multiset<T>, x: T)
    requires a + multiset{x} == b + multiset{x}
    ensures a == b
  {
    assert a == (a + multiset{x}) - multiset{x};
    assert b == (b + multiset{x}) - multiset{x};
  }

  /** The first of one sequence, taken out of a permutation of it. */
  lemma FirstTaken<T>(c: seq<T>, b: seq<T>) returns (i: nat)
    requires multiset(c) == multiset(b) && b != []
    ensures i < |c| && c[i] == b[0] && multiset(c[..i] + c[i + 1..]) == multiset(b[1..])
  {
    assert b[0] in multiset(c);
    i :| 0 <= i < |c| && c[i] == b[0];
    TakeOut(c, i);
    TakeOut(b, 0);
    assert b[..0] + b[1..] == b[1..];
    Cancel(multiset(c[..i] + c[i + 1..]), multiset(b[1..]), b[0]);
  }

  lemma {:induction false} PermutedMembers(schema: Schema, c: seq<Member>, b: seq<Member>)
    requires multiset(c) == multiset(b)
    ensures multiset(FieldsOf(schema, c)) == multiset(FieldsOf(schema, b))
    decreases |b|
  {
    hide FieldsOf, FieldOf;
    if b == [] {
      assert |multiset(c)| == 0;
      assert c == [];
    } else {
      var i := FirstTaken(c, b);
      var rest := c[..i] + c[i + 1..];
      PermutedMembers(schema, rest, b[1..]);
      FieldsWithout(schema, c, i);
      FirstField(schema, b);
    }
  }

  lemma FirstField(schema: Schema, b: seq<Member>)
    requires b != []
    ensures multiset(FieldsOf(schema, b)) == multiset(FieldsOf(schema, b[1..])) + multiset{FieldOf(schema, b[0])}
  {
    hide FieldsOf, FieldOf;
    FieldsWithout(schema, b, 0);
    assert b[..0] + b[1..] == b[1..];
  }

  // ---------- reading them ----------

  /** A document that is read without error, with no key twice, reads to the same fields up to their
      order in every other order of its members. */
  lemma {:induction false} ReorderedReads(kind: Kind, a: Document, b: Document)
    requires Reordered(a, b) && Fits(kind, a) && Read(kind, a).Success? && NoKeyTwice(Read(kind, a).value)
    ensures Fits(kind, b) && Read(kind, b).Success? && SameValue(Read(kind, a).value, Read(kind, b).value)
    decreases a, 0
  {
    match kind
    case TextKind =>
    case NumberKind =>
    case FlagKind =>
    case RecordKind(schema) => ReorderedMembers(schema, a.members, b.members);
    case ListKind(schema) => ReorderedList(schema, a.elements, b.elements);
  }

  lemma {:induction false} ReorderedMembers(schema: Schema, ms: seq<Member>, ns: seq<Member>)
    requires MembersReordered(ms, ns) && MembersFit(schema, ms) && ReadMembers(schema, ms).Success?
    requires NoKeyTwice(Record(ReadMembers(schema, ms).value))
    ensures MembersFit(schema, ns) && ReadMembers(schema, ns).Success?
    ensures SameFields(ReadMembers(schema, ms).value, ReadMembers(schema, ns).value)
    decreases ms, 1
  {
    hide Reordered, MemberFits, ReadMember, SameValue, NoKeyTwice, FieldOf, SameFields;
    var c :| multiset(c) == multiset(ns) && MembersLike(ms, c);
    ReadEach(schema, ms);
    ReadEach(schema, ns);
    ReorderedEach(schema, ms, c);
    EachPermuted(schema, c, ns);
    PermutedMembers(schema, c, ns);
    SameUpToOrder(FieldsOf(schema, ms), FieldsOf(schema, c), FieldsOf(schema, ns));
  }

  lemma {:induction false} ReorderedEach(schema: Schema, ms: seq<Member>, c: seq<Member>)
    requires MembersLike(ms, c) && EachRead(schema, ms) && NoKeyTwice(Record(FieldsOf(schema, ms)))
    ensures EachRead(schema, c) && Alike(FieldsOf(schema, ms), FieldsOf(schema, c))
    ensures DistinctKeys(FieldsOf(schema, ms))
    decreases ms, 0
  {
    var a := FieldsOf(schema, ms);
    forall i | 0 <= i < |ms|
      ensures MemberFits(schema, c[i]) && ReadMember(schema, c[i]).Success?
      ensures FieldOf(schema, c[i]).key == a[i].key && SameValue(a[i].value, FieldOf(schema, c[i]).value)
    {
      assert NoKeyTwice(a[i].value) && MemberLike(ms[i], c[i]);
      ReorderedMember(schema, ms[i], c[i]);
    }
  }

  lemma EachPermuted(schema: Schema, c: seq<Member>, b: seq<Member>)
    requires EachRead(schema, c) && multiset(c) == multiset(b)
    ensures EachRead(schema, b)
  {
    forall i | 0 <= i < |b| ensures MemberFits(schema, b[i]) && ReadMember(schema, b[i]).Success? {
      assert b[i] in multiset(c);
    }
  }

  lemma SameUpToOrder(a: seq<Field>, c: seq<Field>, b: seq<Field>)
    requires Alike(a, c) && DistinctKeys(a) && multiset(c) == multiset(b)
    ensures SameFields(a, b)
  {
    hide Alike;
    AlikeKeepsKeys(a, c);
    DistinctPermuted(c, b);
  }

  lemma AlikeKeepsKeys(a: seq<Field>, c: seq<Field>)
    requires Alike(a, c) && DistinctKeys(a)
    ensures DistinctKeys(c)
  {
  }

  /** Distinct keys stay distinct in every order. */
  lemma {:induction false} DistinctPermuted(c: seq<Field>, b: seq<Field>)
    requires DistinctKeys(c) && multiset(c) == multiset(b)
    ensures DistinctKeys(b)
    decreases |b|
  {
    if b != [] {
      var i := FirstTaken(c, b);
      var rest := c[..i] + c[i + 1..];
      DistinctPermuted(rest, b[1..]);
      forall j | 0 < j < |b| ensures b[0].key != b[j].key {
        assert b[j] == b[1..][j - 1] && b[j] in multiset(rest);
      }
    }
  }

  lemma {:induction false} ReorderedMember(schema: Schema, m: Member, n: Member)
    requires MemberLike(m, n) && MemberFits(schema, m) && ReadMember(schema, m).Success?
    requires NoKeyTwice(ReadMember(schema, m).value.value)
    ensures MemberFits(schema, n) && ReadMember(schema, n).Success?
    ensures ReadMember(schema, n).value.key == ReadMember(schema, m).value.key
    ensures SameValue(ReadMember(schema, m).value.value, ReadMember(schema, n).value.value)
    decreases m
  {
    var key := ReadBody(m.key).value;
    if key in schema {
      ReorderedReads(schema[key], m.value, n.value);
    }
  }

  lemma {:induction false} ReorderedList(schema: Schema, a: seq<Element>, b: seq<Element>)
    requires ElementsReordered(a, b) && ElementsFit(schema, a) && ReadElements(schema, a).Success?
    requires NoKeyTwice(List(ReadElements(schema, a).value))
    ensures ElementsFit(schema, b) && ReadElements(schema, b).Success?
    ensures SameItems(ReadElements(schema, a).value, ReadElements(schema, b).value)
    decreases a, 0
  {
    if a != [] {
      var v := ReadElements(schema, a).value;
      assert NoKeyTwice(v[0]) && v[1..] == ReadElements(schema, a[1..]).value;
      ReorderedReads(RecordKind(schema), a[0].value, b[0].value);
      ReorderedList(schema, a[1..], b[1..]);
    }
  }

  // ---------- whole texts ----------

  /** Two texts of the same members, at every depth in any order and with any layout, load to the same
      configuration, provided the first loads and no object in it has a key twice. */
  lemma OrderIsIrrelevantInTexts(v: string, a: Document, s: string, w: string, b: Document, t: string)
    requires AllSpace(v) && AllSpace(w) && Fits(RecordKind(VM), a) && Reordered(a, b)
    requires Read(RecordKind(VM), a).Success? && NoKeyTwice(Read(RecordKind(VM), a).value)
    ensures FromJsonText(v + Render(a, s)).Success?
    ensures FromJsonText(w + Render(b, t)) == FromJsonText(v + Render(a, s))
  {
    hide Reordered, VMOf, Fits, Render, ParseObject;
    ReorderedReads(RecordKind(VM), a, b);
    TextReads(v, a, s);
    TextReads(w, b, t);
    SameConfiguration(Read(RecordKind(VM), a).value.fields, Read(RecordKind(VM), b).value.fields);
  }

  lemma TextReads(w: string, d: Document, t: string)
    requires AllSpace(w) && Fits(RecordKind(VM), d) && Read(RecordKind(VM), d).Success?
    ensures Read(RecordKind(VM), d).value.Record?
    ensures FromJsonText(w + Render(d, t)) == Success(VMOf(Read(RecordKind(VM), d).value.fields))
  {
    ReadValue(RecordKind(VM), w, d, t);
    ValueOfObject(VM, w + Render(d, t));
  }
}
