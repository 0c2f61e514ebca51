/** Allocation revisions and the text their hashes cover
    (internal/storage/sqlite/store.go). */
module Revisions {
  import opened Basics
  import opened Sorting
  import opened Text
  import opened AuditChain

  // One share of a call: a project, basis points, and how it was decided.
  datatype Entry = Entry(project: string, points: int, origin: string, confidence: string)

  // Entries are listed in the order they were requested; createdAt is the
  // fixed-width UTC text of the time.
  datatype Revision = Revision(
    id: string, call: string, number: int, parent: string, key: string,
    author: string, source: string, reason: string, createdAt: string,
    entries: seq<Entry>, previousHash: string, hash: string)

  function EntryFields(e: Entry): (fields: seq<string>)
    ensures |fields| == 4
  {
    [e.project, Itoa(e.points), e.origin, e.confidence]
  }

  lemma EntryFieldsInjective(e: Entry, f: Entry)
    requires EntryFields(e) == EntryFields(f)
    ensures e == f
  {
    hide Itoa;
    var a, b := EntryFields(e), EntryFields(f);
    assert a[0] == b[0] && a[1] == b[1] && a[2] == b[2] && a[3] == b[3];
    ItoaInjective(e.points, f.points);
  }

  function Part(e: Entry): string {
    LengthSafeFields(EntryFields(e))
  }

  lemma PartInjective()
    ensures Injective(Part)
  {
    forall e, f | Part(e) == Part(f) ensures e == f {
      hide LengthSafeFields;
      hide EntryFields;
      LengthSafeFieldsInjective(EntryFields(e), EntryFields(f));
      EntryFieldsInjective(e, f);
    }
  }

  function Joined(parts: seq<string>): string {
    if parts == [] then "" else parts[0] + Joined(parts[1..])
  }

  ghost predicate IsPart(s: string) {
    exists e :: s == Part(e)
  }

  ghost predicate AllParts(parts: seq<string>) {
    forall k :: 0 <= k < |parts| ==> IsPart(parts[k])
  }

  ghost function EntryOf(s: string): (e: Entry)
    requires IsPart(s)
    ensures s == Part(e)
  {
    var e :| s == Part(e); e
  }

  lemma PartNonEmpty(e: Entry)
    ensures |Part(e)| > 0
  {
    hide LengthSafeField;
    hide Itoa;
    assert Part(e) == LengthSafeField(EntryFields(e)[0]) + LengthSafeFields(EntryFields(e)[1..]);
  }

  lemma PartEnds(e: Entry, x: string, f: Entry, y: string)
    requires Part(e) + x == Part(f) + y
    ensures e == f && x == y
  {
    hide LengthSafeFields;
    hide EntryFields;
    LengthSafeFieldsPrefix(EntryFields(e), x, EntryFields(f), y);
    EntryFieldsInjective(e, f);
  }

  // The joined parts can be taken apart again.
  lemma {:induction false} JoinedInjective(p: seq<string>, q: seq<string>)
    requires AllParts(p) && AllParts(q)
    requires Joined(p) == Joined(q)
    ensures p == q
  {
    hide Part;
    hide IsPart;
    if p != [] {
      PartNonEmpty(EntryOf(p[0]));
    }
    if q != [] {
      PartNonEmpty(EntryOf(q[0]));
    }
    if p != [] && q != [] {
      PartEnds(EntryOf(p[0]), Joined(p[1..]), EntryOf(q[0]), Joined(q[1..]));
      assert forall k :: 0 <= k < |p[1..]| ==> p[1..][k] == p[k + 1];
      assert forall k :: 0 <= k < |q[1..]| ==> q[1..][k] == q[k + 1];
      JoinedInjective(p[1..], q[1..]);
      assert p == [p[0]] + p[1..] && q == [q[0]] + q[1..];
    }
  }

  lemma StringOrder()
    ensures TotalOrder(StringLe)
  {
    forall x, y ensures (StringLe(x, y) || StringLe(y, x)) && (StringLe(x, y) && StringLe(y, x) ==> x == y) {
      StringLeTotal(x, y);
    }
    forall x, y, z | StringLe(x, y) && StringLe(y, z) ensures StringLe(x, z) {
      StringLeTransitive(x, y, z);
    }
  }

  // The entries as they are hashed: their parts sorted and joined.
  function EntriesText(entries: seq<Entry>): string {
    Joined(Sort(StringLe, Image(Part, entries)))
  }

  lemma SortedParts(entries: seq<Entry>)
    ensures AllParts(Sort(StringLe, Image(Part, entries)))
  {
    hide Part;
    var parts := Image(Part, entries);
    var sorted := Sort(StringLe, parts);
    SortMultiset(StringLe, parts);
    forall k | 0 <= k < |sorted| ensures IsPart(sorted[k]) {
      assert sorted[k] in multiset(sorted);
      assert sorted[k] in parts;
      ImageMember(Part, entries, sorted[k]);
    }
  }

  // The text forgets the order of the entries, and nothing else.
  lemma EntriesTextExact(a: seq<Entry>, b: seq<Entry>)
    ensures EntriesText(a) == EntriesText(b) <==> multiset(a) == multiset(b)
  {
    hide Part;
    hide StringLe;
    StringOrder();
    PartInjective();
    SortDependsOnMultiset(StringLe, Image(Part, a), Image(Part, b));
    ImageKeepsMultisets(Part, a, b);
    if EntriesText(a) == EntriesText(b) {
      SortedParts(a);
      SortedParts(b);
      JoinedInjective(Sort(StringLe, Image(Part, a)), Sort(StringLe, Image(Part, b)));
    }
  }

  function Metadata(r: Revision): (fields: seq<string>)
    ensures |fields| == 9
  {
    [r.id, Itoa(r.number), r.parent, r.key, r.author, r.source, r.reason, r.createdAt, EntriesText(r.entries)]
  }

  // allocationRevisionHash, for the only subject type the store accepts.
  function RevisionHash(sha: Sha, r: Revision, previousHash: string): string {
    Hash(sha, "model_call" + "\0" + r.call, LengthSafeFields(Metadata(r)), previousHash)
  }

  predicate SameMetadata(r: Revision, q: Revision) {
    && r.id == q.id && r.number == q.number && r.parent == q.parent && r.key == q.key
    && r.author == q.author && r.source == q.source && r.reason == q.reason && r.createdAt == q.createdAt
  }

  lemma MetadataExact(r: Revision, q: Revision)
    ensures Metadata(r) == Metadata(q) <==> SameMetadata(r, q) && multiset(r.entries) == multiset(q.entries)
  {
    hide EntriesText;
    hide Itoa;
    EntriesTextExact(r.entries, q.entries);
    var a, b := Metadata(r), Metadata(q);
    if a == b {
      assert a[0] == b[0] && a[1] == b[1] && a[2] == b[2] && a[3] == b[3] && a[4] == b[4];
      assert a[5] == b[5] && a[6] == b[6] && a[7] == b[7] && a[8] == b[8];
      ItoaInjective(r.number, q.number);
    }
  }

  // Main result: two revisions of one call have the same hash exactly when their
  // metadata, previous hash and multiset of entries are the same, whatever text
  // those fields hold.
  lemma RevisionHashExact(sha: Sha, r: Revision, h: string, q: Revision, g: string)
    requires Digesting(sha) && r.call == q.call && OneLine(h) && OneLine(g)
    ensures RevisionHash(sha, r, h) == RevisionHash(sha, q, g) <==>
            SameMetadata(r, q) && h == g && multiset(r.entries) == multiset(q.entries)
  {
    hide Metadata;
    hide LengthSafeFields;
    hide SameMetadata;
    hide Hash;
    HashInjectiveInSession(sha, "model_call" + "\0"
        + r.call, LengthSafeFields(Metadata(r)), h, LengthSafeFields(Metadata(q)), g);
    LengthSafeFieldsInjective(Metadata(r), Metadata(q));
    MetadataExact(r, q);
  }

  // ---- the hashed text, spelled out -------------------------------------------------------

  // A field after its length in bytes and a colon.
  function Field(f: string): string {
    Itoa(Utf8Len(f)) + ":" + f
  }

  lemma FieldsNext(f: string, fields: seq<string>)
    ensures LengthSafeFields([f] + fields) == Field(f) + LengthSafeFields(fields)
  {
    assert ([f] + fields)[1..] == fields;
  }

  lemma FourFields(a: string, b: string, c: string, d: string, rest: seq<string>)
    ensures LengthSafeFields([a, b, c, d] + rest) ==
            Field(a) + (Field(b) + (Field(c) + (Field(d) + LengthSafeFields(rest))))
  {
    hide Field;
    hide LengthSafeFields;
    assert [a, b, c, d] + rest == [a] + ([b] + ([c] + ([d] + rest)));
    FieldsNext(a, [b] + ([c] + ([d] + rest)));
    FieldsNext(b, [c] + ([d] + rest));
    FieldsNext(c, [d] + rest);
    FieldsNext(d, rest);
  }

  // An entry is hashed as its project, points, method and confidence.
  lemma PartSpelled(e: Entry)
    ensures Part(e) == Field(e.project) + (Field(Itoa(e.points)) + (Field(e.origin) + Field(e.confidence)))
  {
    hide Field;
    hide Itoa;
    assert EntryFields(e) == [e.project, Itoa(e.points), e.origin, e.confidence] + [];
    FourFields(e.project, Itoa(e.points), e.origin, e.confidence, []);
    assert Field(e.confidence) + LengthSafeFields([]) == Field(e.confidence);
  }

  // Main result on the hashed text: the call, the revision's own fields in this order, its
  // sorted entries, and the previous hash.
  lemma RevisionHashSpelled(sha: Sha, r: Revision, previousHash: string)
    ensures RevisionHash(sha, r, previousHash) ==
            sha("model_call" + "\0" + r.call + "\n"
                + (Field(r.id) + (Field(Itoa(r.number)) + (Field(r.parent) + (Field(r.key)
                   + (Field(r.author) + (Field(r.source) + (Field(r.reason) + (Field(r.createdAt)
                      + Field(EntriesText(r.entries))))))))))
                + "\n" + previousHash)
  {
    hide Field;
    hide Itoa;
    hide EntriesText;
    hide LengthSafeFields;
    var number, text := Itoa(r.number), EntriesText(r.entries);
    var tail := [r.author, r.source, r.reason, r.createdAt] + [text];
    assert Metadata(r) == [r.id, number, r.parent, r.key] + tail;
    FourFields(r.id, number, r.parent, r.key, tail);
    FourFields(r.author, r.source, r.reason, r.createdAt, [text]);
    OneField(text);
  }

  lemma OneField(f: string)
    ensures LengthSafeFields([f]) == Field(f)
  {
    FieldsNext(f, []);
    assert [f] + [] == [f];
    assert Field(f) + "" == Field(f);
  }
}
