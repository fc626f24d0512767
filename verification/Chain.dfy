/**
 What a backup stores of its source and what it points back to, and what reading it back checks:
 packages/backup/src/backups/entries.ts and create.ts, src/chain, src/format/catalog.ts and manifest.ts.
 */
module Chain {
  // A digest stands for the bytes it was made from: two are equal exactly when the bytes are. A text
  // is its UTF-16 code units, and a catalog or a manifest is the value its JSON holds.

  import opened Wrappers

  type Id = nat
  type Repo = string
  type Unit = x: int | 0 <= x < 0x1_0000
  type Text = seq<Unit>
  type Content = seq<nat>

  const NAME_MAX: nat := 4096
  const FINGERPRINT_MAX: nat := 1024
  const POSITION_MAX: nat := 65536
  const MANIFEST_MAX_BYTES: nat := 67108864
  const SAFE_MAX: nat := 0x1f_ffff_ffff_ffff

  /** An object's key: so many zeros and a number, then `.age`; the catalog's; or anything else. */
  datatype Key = Numbered(zeros: nat, n: nat) | CatalogAge | Foreign

  /** The key `create` gives its n-th object. */
  function KeyOf(n: nat): Key {
    Numbered(0, n)
  }

  function PowerOfTen(k: nat): (p: nat)
    ensures p >= 1
  {
    if k == 0 then 1 else 10 * PowerOfTen(k - 1)
  }

  /** One to nine digits. */
  predicate IsObjectKey(k: Key) {
    k.Numbered? && k.zeros <= 8 && k.n < PowerOfTen(9 - k.zeros)
  }

  function Decimal(n: nat): (d: seq<nat>)
    ensures |d| >= 1
  {
    if n < 10 then [n] else Decimal(n / 10) + [n % 10]
  }

  /** The digits of a key's name. */
  function DigitsOf(k: Key): seq<nat>
    requires k.Numbered?
  {
    seq(k.zeros, _ => 0) + Decimal(k.n)
  }

  function ValueOf(digits: seq<nat>): nat {
    if digits == [] then 0 else 10 * ValueOf(digits[..|digits| - 1]) + digits[|digits| - 1]
  }

  lemma {:induction false} FitsIn(n: nat, k: nat)
    requires k > 0
    ensures n < PowerOfTen(k) <==> |Decimal(n)| <= k
    decreases k
  {
    assert PowerOfTen(k) == 10 * PowerOfTen(k - 1);
    if k > 1 && n >= 10 { FitsIn(n / 10, k - 1); }
  }

  lemma {:induction false} ValueOfDigits(zeros: nat, n: nat)
    ensures ValueOf(DigitsOf(Numbered(zeros, n))) == n
    decreases n
  {
    var digits := DigitsOf(Numbered(zeros, n));
    if n < 10 {
      assert digits[..|digits| - 1] == seq(zeros, _ => 0);
      ValueOfZeros(zeros);
    } else {
      assert digits[..|digits| - 1] == DigitsOf(Numbered(zeros, n / 10));
      ValueOfDigits(zeros, n / 10);
    }
  }

  lemma {:induction false} ValueOfZeros(zeros: nat)
    ensures ValueOf(seq(zeros, _ => 0)) == 0
  {
    if zeros > 0 {
      assert seq(zeros, _ => 0)[..zeros - 1] == seq(zeros - 1, _ => 0);
      ValueOfZeros(zeros - 1);
    }
  }

  lemma OneToNine(zeros: nat, n: nat)
    ensures IsObjectKey(Numbered(zeros, n)) <==> zeros + |Decimal(n)| <= 9
  {
    if zeros <= 8 { FitsIn(n, 9 - zeros); }
    hide PowerOfTen, Decimal;
  }

  lemma OnlyItsOwn(zeros: nat, m: nat, n: nat)
    ensures DigitsOf(Numbered(zeros, m)) == Decimal(n) <==> zeros == 0 && m == n
  {
    ValueOfDigits(zeros, m);
    ValueOfDigits(0, n);
    hide Decimal, ValueOf;
    assert DigitsOf(Numbered(0, n)) == Decimal(n);
    assert |DigitsOf(Numbered(zeros, m))| == zeros + |Decimal(m)|;
  }

  /** A key the format takes has one to nine digits; the one given to the n-th object is n in decimal, and only that. */
  lemma KeyIsDigits(k: Key, n: nat)
    ensures IsObjectKey(k) <==> k.Numbered? && |DigitsOf(k)| <= 9
    ensures k == KeyOf(n) <==> k.Numbered? && DigitsOf(k) == Decimal(n)
  {
    if k.Numbered? {
      OneToNine(k.zeros, k.n);
      OnlyItsOwn(k.zeros, k.n, n);
      hide Decimal, PowerOfTen;
    }
  }

  datatype Sha = Sha(of: Content) | NotHex

  /** Where an entry's object is: `in` absent, a backup's id, or something that is none. */
  datatype Place = Here | In(id: Id) | Nowhere

  datatype Entry = Entry(name: Text, key: Key, at: Place, size: int, sha: Sha, fingerprint: Option<Text>)

  datatype Catalog = Catalog(kind: Text, entries: seq<Entry>, position: Option<Text>)

  datatype StoredObject = StoredObject(key: Key, size: int, hex: bool)

  datatype Kind = Full | Incremental | Differential

  datatype Manifest = Manifest(id: Id, kind: Kind, parent: Option<Id>, recipients: seq<Text>,
                               catalog: StoredObject, objects: seq<StoredObject>)

  /** A backup: its manifest, its catalog, and the bytes its objects were sealed from. */
  datatype Backup = Backup(manifest: Manifest, catalog: Catalog, contents: seq<Content>)

  // ----- catalog.ts

  /** A name is bounded in code units, as its `length` says. */
  predicate IsEntryName(name: Text) {
    0 !in name && 0 < |name| <= NAME_MAX
  }

  /** `Buffer.byteLength`: a pair of surrogates is four bytes, one alone is replaced by three. */
  function Utf8Length(t: Text): nat {
    if t == [] then 0
    else if t[0] < 0x80 then 1 + Utf8Length(t[1..])
    else if t[0] < 0x800 then 2 + Utf8Length(t[1..])
    else if 0xd800 <= t[0] < 0xdc00 && |t| > 1 && 0xdc00 <= t[1] < 0xe000 then 4 + Utf8Length(t[2..])
    else 3 + Utf8Length(t[1..])
  }

  /** A code point's bytes: section 3 of RFC 3629. */
  function Encoded(point: nat): (b: seq<nat>)
    requires point < 0x11_0000
    ensures forall k | 0 <= k < |b| :: b[k] < 0x100 && (k > 0 ==> 0x80 <= b[k] < 0xc0)
    ensures match |b|
            case 1 => b[0] < 0x80
            case 2 => 0xc2 <= b[0] < 0xe0
            case 3 => 0xe0 <= b[0] < 0xf0
            case _ => |b| == 4 && 0xf0 <= b[0] < 0xf5
  {
    if point < 0x80 then [point]
    else if point < 0x800 then [0xc0 + point / 0x40, 0x80 + point % 0x40]
    else if point < 0x1_0000 then [0xe0 + point / 0x1000, 0x80 + point / 0x40 % 0x40, 0x80 + point % 0x40]
    else [0xf0 + point / 0x4_0000, 0x80 + point / 0x1000 % 0x40, 0x80 + point / 0x40 % 0x40, 0x80 + point % 0x40]
  }

  /** A text's bytes: two surrogates are one code point, and one alone is U+FFFD. */
  function Utf8(t: Text): seq<nat> {
    if t == [] then []
    else if 0xd800 <= t[0] < 0xdc00 && |t| > 1 && 0xdc00 <= t[1] < 0xe000 then
      Encoded(0x1_0000 + (t[0] as nat - 0xd800) * 0x400 + (t[1] as nat - 0xdc00)) + Utf8(t[2..])
    else Encoded(if 0xd800 <= t[0] < 0xe000 then 0xfffd else t[0]) + Utf8(t[1..])
  }

  lemma {:induction false} LengthIsOfUtf8(t: Text)
    ensures Utf8Length(t) == |Utf8(t)|
    decreases |t|
  {
    if t == [] {
    } else if 0xd800 <= t[0] < 0xdc00 && |t| > 1 && 0xdc00 <= t[1] < 0xe000 {
      LengthIsOfUtf8(t[2..]);
    } else {
      LengthIsOfUtf8(t[1..]);
    }
  }

  /** Other texts are bounded in bytes. */
  predicate IsOptionalText(t: Option<Text>, max: nat) {
    t.Some? ==> Utf8Length(t.value) <= max
  }

  datatype Problem =
    | NotAName | NotFollowing | NotSayingWhere | BadSize | BadSha | BadFingerprint
    | SameName | NotMatching | BadKey | BadCatalogKey | NotNumbered

  /** `entryProblem`. */
  function EntryProblem(e: Entry, own: nat): Option<Problem> {
    if !IsEntryName(e.name) then Some(NotAName)
    else if e.at.Here? && e.key != KeyOf(own) then Some(NotFollowing)
    else if !e.at.Here? && (e.at.Nowhere? || !IsObjectKey(e.key)) then Some(NotSayingWhere)
    else if !(0 <= e.size <= SAFE_MAX) then Some(BadSize)
    else if e.sha.NotHex? then Some(BadSha)
    else if !IsOptionalText(e.fingerprint, FINGERPRINT_MAX) then Some(BadFingerprint)
    else None
  }

  /** An entry is taken exactly when each of its fields is one: sizes, digits and lengths by the format. */
  lemma TakenExactly(e: Entry, own: nat)
    ensures EntryProblem(e, own).None? <==>
              && 1 <= |e.name| <= 4096 && 0 !in e.name
              && e.key.Numbered? && e.at != Nowhere
              && (if e.at.Here? then DigitsOf(e.key) == Decimal(own) else |DigitsOf(e.key)| <= 9)
              && 0 <= e.size < 0x20_0000_0000_0000 && e.sha.Sha?
              && (e.fingerprint.Some? ==> |Utf8(e.fingerprint.value)| <= 1024)
  {
    KeyIsDigits(e.key, own);
    if e.fingerprint.Some? { LengthIsOfUtf8(e.fingerprint.value); }
    hide IsObjectKey, DigitsOf, Decimal, KeyOf, Utf8, Utf8Length;
  }

  /** How many entries a backup stores itself. */
  function Own(entries: seq<Entry>): (n: nat)
    ensures n <= |entries|
  {
    if entries == [] then 0
    else Own(entries[..|entries| - 1]) + if entries[|entries| - 1].at.Here? then 1 else 0
  }

  predicate OnceEach(entries: seq<Entry>) {
    forall i, j | 0 <= i < j < |entries| :: entries[i].name != entries[j].name
  }

  predicate EachRead(entries: seq<Entry>) {
    forall i | 0 <= i < |entries| :: EntryProblem(entries[i], Own(entries[..i])).None?
  }

  /** What `readCatalog` takes for a manifest listing so many objects. */
  predicate IsEntries(entries: seq<Entry>, objects: nat) {
    EachRead(entries) && OnceEach(entries) && Own(entries) == objects
  }

  lemma ReadMore(entries: seq<Entry>, e: Entry)
    ensures EachRead(entries + [e]) <==> EachRead(entries) && EntryProblem(e, Own(entries)).None?
    ensures OnceEach(entries + [e]) <==> OnceEach(entries) && forall k | k in entries :: k.name != e.name
  {
    hide EntryProblem, Own;
    var more := entries + [e];
    assert forall i | 0 <= i < |entries| :: more[i] == entries[i] && more[..i] == entries[..i];
    assert more[|entries|] == e && more[..|entries|] == entries;
  }

  lemma ReadStart(entries: seq<Entry>, i: nat)
    requires i <= |entries|
    ensures EachRead(entries) ==> EachRead(entries[..i])
    ensures OnceEach(entries) ==> OnceEach(entries[..i])
  {
    hide EntryProblem, Own;
    assert forall j | 0 <= j < i :: entries[..i][j] == entries[j] && entries[..i][..j] == entries[..j];
  }

  /** The first entries are read: none has a problem, and their names and the number of their own are known. */
  ghost predicate ReadTo(entries: seq<Entry>, i: nat, names: set<Text>, own: nat)
    requires i <= |entries|
  {
    && own == Own(entries[..i]) && EachRead(entries[..i]) && OnceEach(entries[..i])
    && forall n :: n in names <==> exists k | k in entries[..i] :: k.name == n
  }

  lemma ReadNext(entries: seq<Entry>, i: nat, names: set<Text>, own: nat)
    requires i < |entries| && ReadTo(entries, i, names, own)
    ensures if EntryProblem(entries[i], own).None? && entries[i].name !in names
            then ReadTo(entries, i + 1, names + {entries[i].name}, own + if entries[i].at.Here? then 1 else 0)
            else !IsEntries(entries, Own(entries))
  {
    hide EntryProblem, EachRead, OnceEach, Own;
    assert entries[..i + 1] == entries[..i] + [entries[i]];
    ReadMore(entries[..i], entries[i]);
    ReadStart(entries, i + 1);
    OwnMore(entries[..i], entries[i]);
  }

  lemma ReadAll(entries: seq<Entry>, names: set<Text>, own: nat, objects: nat)
    requires ReadTo(entries, |entries|, names, own)
    ensures own == objects <==> IsEntries(entries, objects)
  {
    assert entries[..|entries|] == entries;
  }

  /** `entriesProblem`: nothing exactly when the entries are such a catalog's. */
  method EntriesProblem(entries: seq<Entry>, objects: nat) returns (p: Option<Problem>)
    ensures p.None? <==> IsEntries(entries, objects)
  {
    assert forall n :: IsEntries(entries, n) ==> IsEntries(entries, Own(entries));
    hide *;
    var names: set<Text> := {};
    var own := 0;
    for i := 0 to |entries|
      invariant ReadTo(entries, i, names, own)
    {
      ReadNext(entries, i, names, own);
      p := EntryProblem(entries[i], own);
      if p.Some? { return; }
      if entries[i].name in names { return Some(SameName); }
      names := names + {entries[i].name};
      if entries[i].at.Here? { own := own + 1; }
    }
    ReadAll(entries, names, own, objects);
    p := if own == objects then None else Some(NotMatching);
  }

  // ----- manifest.ts

  /** `objectProblem`. */
  function ObjectProblem(o: StoredObject): Option<Problem> {
    if !(IsObjectKey(o.key) || o.key.CatalogAge?) then Some(BadKey)
    else if !(0 <= o.size <= SAFE_MAX) then Some(BadSize)
    else if !o.hex then Some(BadSha)
    else None
  }

  predicate IsObjects(catalog: StoredObject, objects: seq<StoredObject>) {
    && ObjectProblem(catalog).None? && catalog.key.CatalogAge?
    && forall i | 0 <= i < |objects| :: ObjectProblem(objects[i]).None? && objects[i].key == KeyOf(i)
  }

  /** `objectsProblem`: nothing exactly when the objects are numbered in order, the catalog apart. */
  method ObjectsProblem(catalog: StoredObject, objects: seq<StoredObject>) returns (p: Option<Problem>)
    ensures p.None? <==> IsObjects(catalog, objects)
  {
    p := ObjectProblem(catalog);
    if p.Some? { return; }
    if catalog.key != CatalogAge { return Some(BadCatalogKey); }
    for i := 0 to |objects|
      invariant forall j | 0 <= j < i :: ObjectProblem(objects[j]).None? && objects[j].key == KeyOf(j)
    {
      p := ObjectProblem(objects[i]);
      if p.Some? { return; }
      if objects[i].key != KeyOf(i) { return Some(NotNumbered); }
    }
    p := None;
  }

  predicate IsRecipient(r: Text) {
    [0x61, 0x67, 0x65, 0x31] <= r
  }

  /** What `readManifest` takes: a parent exactly when it is not full, older than it; objects numbered in order. */
  predicate IsManifest(m: Manifest) {
    && (m.kind.Full? <==> m.parent.None?) && (m.parent.Some? ==> m.parent.value < m.id)
    && m.recipients != [] && (forall r | r in m.recipients :: IsRecipient(r))
    && IsObjects(m.catalog, m.objects)
  }

  // ----- view.ts

  datatype Refusal = NotFound | Missing | OutsideChain | NoObject | OtherRecipients | OtherKind
                   | BadEntry | BadPosition | ManifestTooLarge | NoRepository | NotStored | Partial

  /** The manifests one repository gives back, each checked, by id. */
  type Reads = map<Id, Manifest>

  ghost predicate AreRead(there: Reads) {
    forall id | id in there :: there[id].id == id && IsManifest(there[id])
  }

  /** Every manifest down to a full backup is there. */
  predicate Whole(there: Reads, m: Manifest)
    decreases m.id
  {
    m.parent.Some? ==>
      && m.parent.value in there && there[m.parent.value].id < m.id
      && Whole(there, there[m.parent.value])
  }

  /** A backup's manifest and those it builds on. */
  function Walked(there: Reads, m: Manifest): map<Id, Manifest>
    requires Whole(there, m)
    decreases m.id
  {
    if m.parent.None? then map[m.id := m] else Walked(there, there[m.parent.value])[m.id := m]
  }

  /** `chainOf`: the walk ends, with every manifest of the chain or at the first one that is gone. */
  method ChainOf(there: Reads, m: Manifest) returns (chain: Result<map<Id, Manifest>, Refusal>)
    requires AreRead(there) && IsManifest(m)
    ensures chain.Ok? <==> Whole(there, m)
    ensures chain.Ok? ==> chain.value == Walked(there, m)
    ensures chain.Err? ==> chain.error == Missing
  {
    var found := map[m.id := m];
    var child := m;
    while child.parent.Some?
      invariant IsManifest(child) && child.id in found && found[child.id] == child
      invariant Whole(there, m) <==> Whole(there, child)
      invariant forall id | id in found :: id >= child.id
      invariant Whole(there, m) ==> Walked(there, m) == Walked(there, child) + found
      decreases child.id
    {
      if child.parent.value !in there { return Err(Missing); }
      var parent := there[child.parent.value];
      if Whole(there, child) { WalkedAreOlder(there, parent); }
      found := found[parent.id := parent];
      child := parent;
    }
    chain := Ok(found);
  }

  lemma {:induction false} WalkedAreOlder(there: Reads, m: Manifest)
    requires Whole(there, m)
    ensures m.id in Walked(there, m) && forall id | id in Walked(there, m) :: id <= m.id
    decreases m.id
  {
    if m.parent.Some? { WalkedAreOlder(there, there[m.parent.value]); }
  }

  function Holder(e: Entry, id: Id): Id {
    if e.at.In? then e.at.id else id
  }

  /** `locate`: the backup holding an entry's object, and which of its objects it is. */
  function Locate(chain: map<Id, Manifest>, id: Id, e: Entry): Result<(Id, nat), Refusal> {
    var holder := Holder(e, id);
    if holder !in chain then Err(OutsideChain)
    else if e.key.Numbered? && e.key.n < |chain[holder].objects| && chain[holder].objects[e.key.n].key == e.key
    then Ok((holder, e.key.n))
    else Err(NoObject)
  }

  /** What is located is the one object of its holder's that has the entry's key, and nothing when none has. */
  lemma LocatesExactly(chain: map<Id, Manifest>, id: Id, e: Entry)
    requires forall k | k in chain :: IsManifest(chain[k])
    ensures var found, holder := Locate(chain, id, e), if e.at.In? then e.at.id else id;
            if found.Ok? then
              && holder in chain && found.value.0 == holder && found.value.1 < |chain[holder].objects|
              && forall i | 0 <= i < |chain[holder].objects| ::
                chain[holder].objects[i].key == e.key <==> i == found.value.1
            else
              && found.error == (if holder in chain then NoObject else OutsideChain)
              && (holder in chain ==> forall i | 0 <= i < |chain[holder].objects| ::
                chain[holder].objects[i].key != e.key)
  {
    hide PowerOfTen;
  }

  // ----- base.ts

  /** What the base knows of a name: its bytes' size and digest, and the key they are under. */
  datatype Known = Known(size: int, sha: Sha, fingerprint: Option<Text>, at: Id, key: Key)

  type Base = map<Text, Known>

  function KnownOf(e: Entry, id: Id): Known {
    Known(e.size, e.sha, e.fingerprint, Holder(e, id), e.key)
  }

  /** `baseOf`'s map: every entry of the catalog built on, by name. */
  method KnownEntries(entries: seq<Entry>, id: Id) returns (known: Base)
    requires OnceEach(entries)
    ensures forall name :: name in known <==> exists i | 0 <= i < |entries| :: entries[i].name == name
    ensures forall i | 0 <= i < |entries| ::
              entries[i].name in known && known[entries[i].name] == KnownOf(entries[i], id)
  {
    known := map[];
    for i := 0 to |entries|
      invariant forall name :: name in known <==> exists j | 0 <= j < i :: entries[j].name == name
      invariant forall j | 0 <= j < i :: known[entries[j].name] == KnownOf(entries[j], id)
    {
      known := known[entries[i].name := KnownOf(entries[i], id)];
    }
  }

  /** Whether a new backup of this kind may build on a manifest. */
  predicate Suits(kind: Kind, m: Manifest) {
    kind.Incremental? || m.kind.Full?
  }

  /** `newestFor`: the newest readable backup of the right kind, older than the new one. */
  method NewestFor(listing: seq<Id>, there: Reads, id: Id, kind: Kind) returns (m: Option<Manifest>)
    requires (forall i, j | 0 <= i < j < |listing| :: listing[i] < listing[j]) && AreRead(there)
    ensures m.Some? ==> m.value.id in listing && m.value.id in there && there[m.value.id] == m.value && m.value.id < id
    ensures m.Some? ==> (kind.Incremental? || m.value.kind.Full?) && forall other |
              other in listing && other in there && other < id && (kind.Incremental? || there[other].kind.Full?) ::
              other <= m.value.id
    ensures m.None? ==> forall other | other in listing && other in there && other < id ::
              !kind.Incremental? && !there[other].kind.Full?
  {
    var k := |listing|;
    while k > 0
      invariant 0 <= k <= |listing|
      invariant forall j | k <= j < |listing| && listing[j] in there && listing[j] < id ::
                !Suits(kind, there[listing[j]])
    {
      k := k - 1;
      if listing[k] < id && listing[k] in there && Suits(kind, there[listing[k]]) {
        return Some(there[listing[k]]);
      }
    }
    m := None;
  }

  /** `requireEverywhere`: every other repository without the whole chain is left out. */
  method RequireEverywhere(repositories: seq<Repo>, there: map<Repo, Reads>, failed: set<Repo>, from: Repo,
      base: Manifest) returns (left: set<Repo>)
    requires forall r | r in repositories :: r in there && AreRead(there[r])
    ensures forall r :: r in left <==> r in failed || (r in repositories && r != from && !HasChain(there[r], base.id))
  {
    left := failed;
    for i := 0 to |repositories|
      invariant forall r :: r in left <==>
                  r in failed || (r in repositories[..i] && r != from && !HasChain(there[r], base.id))
    {
      var r := repositories[i];
      assert repositories[..i + 1] == repositories[..i] + [r];
      if r != from && r !in failed {
        if base.id !in there[r] {
          left := left + {r};
        } else {
          var chain := ChainOf(there[r], there[r][base.id]);
          if chain.Err? { left := left + {r}; }
        }
      }
    }
    assert repositories[..|repositories|] == repositories;
  }

  predicate HasChain(there: Reads, id: Id) {
    id in there && Whole(there, there[id])
  }

  // ----- entries.ts

  datatype SourceEntry = SourceEntry(name: Text, fingerprint: Option<Text>, content: Content)

  /** `pointer`: an entry without an object of its own, whose bytes an older backup holds. */
  function Pointer(e: SourceEntry, known: Known): Entry {
    Entry(e.name, known.key, In(known.at), known.size, known.sha, e.fingerprint)
  }

  predicate SameFingerprint(e: SourceEntry, known: Known) {
    e.fingerprint.Some? && e.fingerprint == known.fingerprint
  }

  /** What the catalog says of a source's entry, when so many before it are the backup's own. */
  function EntryFor(base: Base, e: SourceEntry, own: nat): Entry {
    if e.name in base && (SameFingerprint(e, base[e.name]) || base[e.name].sha == Sha(e.content))
    then Pointer(e, base[e.name])
    else Entry(e.name, KeyOf(own), Here, |e.content|, Sha(e.content), e.fingerprint)
  }

  /**
   Something is stored anew exactly when the base has nothing under its name, or neither the same
   fingerprint nor the same bytes; else the entry points to where those are.
   */
  lemma StoredAnewExactly(base: Base, e: SourceEntry, own: nat)
    ensures var r := EntryFor(base, e, own);
            && r.name == e.name && r.fingerprint == e.fingerprint
            && (r.at.Here? <==> e.name !in base
                                || ((e.fingerprint.None? || base[e.name].fingerprint != e.fingerprint)
                                    && base[e.name].sha != Sha(e.content)))
            && (r.at.Here? ==> DigitsOf(KeyOf(own)) == Decimal(own) && r.key == KeyOf(own)
                               && r.size == |e.content| && r.sha == Sha(e.content))
            && (!r.at.Here? ==>
              var known := base[e.name];
              r.at == In(known.at) && r.key == known.key && r.size == known.size && r.sha == known.sha)
  {
    KeyIsDigits(KeyOf(own), own);
  }

  /** The outcome of `storeEntries`: entries for the catalog, and what each object it put was sealed from. */
  datatype Stored = Stored(entries: seq<Entry>, contents: seq<Content>, reused: nat)

  /**
   Stored are so many of the source's entries: each recorded as it should
   be, each object sealed from its own entry's bytes.
   */
  ghost predicate AreStored(base: Base, source: seq<SourceEntry>, s: Stored) {
    && |s.entries| <= |source|
    && (forall i | 0 <= i < |s.entries| :: s.entries[i] == EntryFor(base, source[i], Own(s.entries[..i])))
    && |s.contents| == Own(s.entries) && s.reused == |s.entries| - |s.contents|
    && (forall i | 0 <= i < |s.entries| && s.entries[i].at.Here? ::
          Own(s.entries[..i]) < |s.contents| && s.contents[Own(s.entries[..i])] == source[i].content)
  }

  predicate Acceptable(source: seq<SourceEntry>, n: nat)
    requires n <= |source|
  {
    && (forall i | 0 <= i < n :: IsEntryName(source[i].name) && IsOptionalText(source[i].fingerprint, FINGERPRINT_MAX))
    && (forall i, j | 0 <= i < j < n :: source[i].name != source[j].name)
  }

  /** One put, wherever the run still goes: from now on without those that fail or have lost their lease. */
  function PutAll(repositories: set<Repo>, failed: set<Repo>, down: set<Repo>): set<Repo> {
    failed + (down * repositories)
  }

  /** Those left out after so many puts: the ones left out before, and those that failed at one. */
  ghost predicate LeftOut(repositories: set<Repo>, failed: set<Repo>, down: nat -> set<Repo>, puts: nat,
      left: set<Repo>) {
    forall r :: r in left <==> r in failed || (r in repositories && exists n | 0 <= n < puts :: r in down(n))
  }

  lemma OneMorePut(repositories: set<Repo>, failed: set<Repo>, down: nat -> set<Repo>, puts: nat, left: set<Repo>)
    requires LeftOut(repositories, failed, down, puts, left)
    ensures LeftOut(repositories, failed, down, puts + 1, PutAll(repositories, left, down(puts)))
  {
  }

  lemma NoPut(repositories: set<Repo>, failed: set<Repo>, down: nat -> set<Repo>)
    ensures LeftOut(repositories, failed, down, 0, failed)
  {
  }

  /** It reports no failure, at any put. */
  ghost predicate AlwaysUp(down: nat -> set<Repo>, r: Repo) {
    forall n: nat :: r !in down(n)
  }

  lemma UpStays(repositories: set<Repo>, failed: set<Repo>, down: nat -> set<Repo>, n: nat)
    ensures forall r | r in PutAll(repositories, failed, down(n)) && AlwaysUp(down, r) :: r in failed
  {
  }

  lemma OwnMore(entries: seq<Entry>, e: Entry)
    ensures Own(entries + [e]) == Own(entries) + if e.at.Here? then 1 else 0
  {
    assert (entries + [e])[..|entries|] == entries;
  }

  /** One more entry stored. */
  ghost predicate IsNames(names: set<Text>, source: seq<SourceEntry>, i: nat)
    requires i <= |source|
  {
    && (forall j | 0 <= j < i :: source[j].name in names)
    && (forall n | n in names :: exists j | 0 <= j < i :: source[j].name == n)
  }

  lemma AcceptableMore(source: seq<SourceEntry>, i: nat, names: set<Text>)
    requires i < |source| && Acceptable(source, i) && IsNames(names, source, i)
    ensures IsNames(names + {source[i].name}, source, i + 1)
    ensures Acceptable(source, i + 1) <==>
            IsEntryName(source[i].name) && source[i].name !in names
              && IsOptionalText(source[i].fingerprint, FINGERPRINT_MAX)
  {
  }

  lemma NotAcceptable(source: seq<SourceEntry>, i: nat)
    requires i <= |source| && !Acceptable(source, i)
    ensures !Acceptable(source, |source|)
  {
  }

  lemma StoredMore(base: Base, source: seq<SourceEntry>, s: Stored, e: Entry, t: Stored)
    requires AreStored(base, source, s) && |s.entries| < |source|
             && e == EntryFor(base, source[|s.entries|], Own(s.entries))
    requires t == if e.at.Here? then Stored(s.entries + [e], s.contents + [source[|s.entries|].content], s.reused)
                  else Stored(s.entries + [e], s.contents, s.reused + 1)
    ensures AreStored(base, source, t)
  {
    OwnMore(s.entries, e);
    forall i | 0 <= i < |t.entries|
      ensures t.entries[i] == EntryFor(base, source[i], Own(t.entries[..i]))
      ensures t.entries[i].at.Here? ==>
                Own(t.entries[..i]) < |t.contents| && t.contents[Own(t.entries[..i])] == source[i].content
    {
      assert t.entries[..i] == s.entries[..i];
      if i == |s.entries| { assert t.entries[..i] == s.entries; }
    }
  }

  function WithPointer(s: Stored, e: SourceEntry, known: Known): Stored {
    Stored(s.entries + [Pointer(e, known)], s.contents, s.reused + 1)
  }

  function WithObject(s: Stored, e: SourceEntry): Stored {
    Stored(s.entries + [Entry(e.name, KeyOf(|s.contents|), Here, |e.content|, Sha(e.content), e.fingerprint)],
           s.contents + [e.content], s.reused)
  }

  lemma StoredNext(base: Base, source: seq<SourceEntry>, s: Stored)
    requires AreStored(base, source, s) && |s.entries| < |source|
    ensures var e := source[|s.entries|];
            var t := if e.name in base && (SameFingerprint(e, base[e.name]) || base[e.name].sha == Sha(e.content))
              then WithPointer(s, e, base[e.name]) else WithObject(s, e);
            AreStored(base, source, t) && |t.entries| == |s.entries| + 1
    ensures var e := source[|s.entries|];
            && |WithObject(s, e).contents| == |s.contents| + 1
            && forall known :: |WithPointer(s, e, known).contents| == |s.contents|
  {
    var e := source[|s.entries|];
    var has := e.name in base && (SameFingerprint(e, base[e.name]) || base[e.name].sha == Sha(e.content));
    StoredMore(base, source, s, EntryFor(base, e, Own(s.entries)), if has then WithPointer(s, e, base[e.name])
      else WithObject(s, e));
  }

  lemma StoredNone(base: Base, source: seq<SourceEntry>)
    ensures AreStored(base, source, Stored([], [], 0)) && Acceptable(source, 0) && IsNames({}, source, 0)
  {
  }

  lemma PutsAdd(repositories: set<Repo>, failed: set<Repo>, down: set<Repo>)
    ensures failed <= PutAll(repositories, failed, down)
  {
  }

  /**
   `storeEntries`: the entries in turn, until the last one or until no
   repository is left; `down` says who fails at each put.
   */
  method StoreEntries(source: seq<SourceEntry>, base: Base, repositories: set<Repo>, failed: set<Repo>,
      down: nat -> set<Repo>)
    returns (r: Result<Stored, Refusal>, left: set<Repo>)
    ensures failed <= left && forall k | k in left && AlwaysUp(down, k) :: k in failed
    ensures r.Ok? ==> AreStored(base, source, r.value) && Acceptable(source, |r.value.entries|)
    ensures r.Ok? ==> LeftOut(repositories, failed, down, |r.value.contents|, left)
    ensures r.Ok? && !(repositories <= left) ==> |r.value.entries| == |source|
    ensures r.Err? ==> r.error.BadEntry? && !Acceptable(source, |source|)
  {
    hide *;
    var stored := Stored([], [], 0);
    var names: set<Text> := {};
    left := failed;
    StoredNone(base, source);
    NoPut(repositories, failed, down);
    var i := 0;
    while i < |source|
      invariant 0 <= i <= |source| && failed <= left && |stored.entries| == i
      invariant forall k | k in left && AlwaysUp(down, k) :: k in failed
      invariant AreStored(base, source, stored) && Acceptable(source, i) && IsNames(names, source, i)
      invariant LeftOut(repositories, failed, down, |stored.contents|, left)
    {
      var entry := source[i];
      AcceptableMore(source, i, names);
      StoredNext(base, source, stored);
      if !IsEntryName(entry.name) || entry.name in names || !IsOptionalText(entry.fingerprint, FINGERPRINT_MAX) {
        NotAcceptable(source, i + 1);
        return Err(BadEntry), left;
      }
      names := names + {entry.name};
      i := i + 1;
      if entry.name in base && SameFingerprint(entry, base[entry.name]) {
        stored := WithPointer(stored, entry, base[entry.name]);
        continue;
      }
      if entry.name in base && base[entry.name].sha == Sha(entry.content) {
        stored := WithPointer(stored, entry, base[entry.name]);
      } else {
        PutsAdd(repositories, left, down(|stored.contents|));
        UpStays(repositories, left, down, |stored.contents|);
        OneMorePut(repositories, failed, down, |stored.contents|, left);
        left := PutAll(repositories, left, down(|stored.contents|));
        stored := WithObject(stored, entry);
      }
      if repositories <= left { break; }
    }
    r := Ok(stored);
  }

  // ----- every backup ever written

  type Archive = map<Id, Backup>

  function Manifests(a: Archive, ids: set<Id>): Reads
    requires ids <= a.Keys
  {
    map id | id in ids :: a[id].manifest
  }

  ghost predicate Linked(a: Archive) {
    forall id | id in a :: a[id].manifest.id == id && IsManifest(a[id].manifest)
                           && (a[id].manifest.parent.Some? ==> a[id].manifest.parent.value in a)
  }

  lemma {:induction false} LinkedIsWhole(a: Archive, ids: set<Id>, id: Id)
    requires Linked(a) && ids <= a.Keys && id in ids
    requires forall k | k in ids && a[k].manifest.parent.Some? :: a[k].manifest.parent.value in ids
    ensures Whole(Manifests(a, ids), a[id].manifest)
    decreases id
  {
    var m := a[id].manifest;
    if m.parent.Some? {
      assert Manifests(a, ids)[m.parent.value] == a[m.parent.value].manifest;
      LinkedIsWhole(a, ids, m.parent.value);
    }
  }

  /** The manifests a backup is restored with: its own and those of every backup it builds on. */
  function ChainIn(a: Archive, id: Id): map<Id, Manifest>
    requires Linked(a) && id in a
  {
    LinkedIsWhole(a, a.Keys, id);
    Walked(Manifests(a, a.Keys), a[id].manifest)
  }

  /** The bytes an entry's object was sealed from, found the way a restore finds them. */
  function Found(a: Archive, id: Id, e: Entry): Option<Content>
    requires Linked(a) && id in a
  {
    match Locate(ChainIn(a, id), id, e)
    case Err(_) => None
    case Ok((holder, n)) => if holder in a && n < |a[holder].contents| then Some(a[holder].contents[n]) else None
  }

  /** An entry is found in its chain, with the bytes its digest says. */
  ghost predicate Finds(a: Archive, id: Id, e: Entry)
    requires Linked(a) && id in a
  {
    e.sha.Sha? && Found(a, id, e) == Some(e.sha.of) && e.size == |e.sha.of|
  }

  /** The readers take it, and find what it says. */
  ghost predicate GoodBackup(a: Archive, id: Id)
    requires Linked(a) && id in a
  {
    && |a[id].contents| == |a[id].manifest.objects|
    && IsEntries(a[id].catalog.entries, |a[id].manifest.objects|)
    && IsOptionalText(a[id].catalog.position, POSITION_MAX)
    && forall e | e in a[id].catalog.entries :: Finds(a, id, e)
  }

  ghost predicate Good(a: Archive) {
    Linked(a) && forall id | id in a :: GoodBackup(a, id)
  }

  lemma {:induction false} WalkedSame(r: Reads, s: Reads, m: Manifest)
    requires Whole(r, m) && forall id | id in r :: id in s && s[id] == r[id]
    ensures Whole(s, m) && Walked(s, m) == Walked(r, m)
    decreases m.id
  {
    if m.parent.Some? { WalkedSame(r, s, r[m.parent.value]); }
  }

  /** A newer backup changes nothing of what an older one is found with. */
  lemma ChainKept(a: Archive, id: Id, b: Backup, older: Id)
    requires Linked(a) && id !in a && Linked(a[id := b]) && older in a
    ensures ChainIn(a[id := b], older) == ChainIn(a, older)
  {
    LinkedIsWhole(a, a.Keys, older);
    var before, after := Manifests(a, a.Keys), Manifests(a[id := b], a[id := b].Keys);
    forall k | k in before ensures k in after && after[k] == before[k] {}
    WalkedSame(before, after, a[older].manifest);
  }

  lemma {:induction false} InChain(a: Archive, id: Id, k: Id)
    requires Linked(a) && id in a && k in ChainIn(a, id)
    ensures k <= id && k in a && ChainIn(a, id)[k] == a[k].manifest
    decreases id
  {
    LinkedIsWhole(a, a.Keys, id);
    var m := a[id].manifest;
    if m.parent.Some? && k != id {
      LinkedIsWhole(a, a.Keys, m.parent.value);
      InChain(a, m.parent.value, k);
    }
  }

  /** What builds on a backup is found with its chain, and itself. */
  lemma ChainOfNew(a: Archive, id: Id, b: Backup)
    requires Linked(a) && id !in a && Linked(a[id := b])
    ensures ChainIn(a[id := b], id) ==
            (if b.manifest.parent.Some? then ChainIn(a, b.manifest.parent.value) else map[])[id := b.manifest]
  {
    assert id in a[id := b] && a[id := b][id] == b;
    if b.manifest.parent.Some? { ChainKept(a, id, b, b.manifest.parent.value); }
  }

  lemma OldStaysGood(a: Archive, id: Id, b: Backup, older: Id)
    requires Good(a) && id !in a && Linked(a[id := b]) && older in a
    ensures GoodBackup(a[id := b], older)
  {
    ChainKept(a, id, b, older);
    forall e | e in a[older].catalog.entries ensures Finds(a[id := b], older, e) {
      assert Finds(a, older, e);
      var l := Locate(ChainIn(a, older), older, e).value;
      InChain(a, older, l.0);
    }
  }

  // ----- a new one

  /** What a new backup builds on: the entries of a backup of the archive, by name. */
  ghost predicate IsBase(a: Archive, parent: Option<Id>, base: Base) {
    match parent
    case None => base == map[]
    case Some(p) =>
      && p in a
      && (forall name | name in base ::
            exists e | e in a[p].catalog.entries :: e.name == name && base[name] == KnownOf(e, p))
      && forall e | e in a[p].catalog.entries :: e.name in base
  }

  /** The sizes a source's bytes come to are whole numbers the format holds. */
  predicate Sizable(source: seq<SourceEntry>, sealed: Content -> nat) {
    forall e | e in source :: |e.content| <= SAFE_MAX && sealed(e.content) <= SAFE_MAX
  }

  function ObjectsOf(contents: seq<Content>, sealed: Content -> nat): (o: seq<StoredObject>)
    ensures |o| == |contents|
  {
    seq(|contents|, i requires 0 <= i < |contents| => StoredObject(KeyOf(i), sealed(contents[i]), true))
  }

  /** Entries a backup of the archive holds point to objects of its chain, under keys the format takes. */
  lemma KnownIsObject(a: Archive, p: Id, e: Entry)
    requires Good(a) && p in a && e in a[p].catalog.entries
    ensures IsObjectKey(e.key) && 0 <= e.size <= SAFE_MAX && e.sha.Sha?
  {
    hide Walked, Whole, PowerOfTen, Own;
    var entries := a[p].catalog.entries;
    var i :| 0 <= i < |entries| && entries[i] == e;
    assert EntryProblem(entries[i], Own(entries[..i])).None?;
    assert Finds(a, p, e);
    if e.at.Here? {
      var n := Locate(ChainIn(a, p), p, e).value.1;
      InChain(a, p, p);
      assert ObjectProblem(a[p].manifest.objects[n]).None?;
    }
  }

  lemma EntryIsRead(a: Archive, parent: Option<Id>, base: Base, e: SourceEntry, own: nat)
    requires Good(a) && IsBase(a, parent, base) && IsEntryName(e.name) && IsOptionalText(e.fingerprint, FINGERPRINT_MAX)
    requires |e.content| <= SAFE_MAX
    ensures EntryProblem(EntryFor(base, e, own), own).None? && EntryFor(base, e, own).name == e.name
  {
    hide Good;
    if EntryFor(base, e, own).at.In? {
      var known :| known in a[parent.value].catalog.entries && known.name == e.name
        && base[e.name] == KnownOf(known, parent.value);
      KnownIsObject(a, parent.value, known);
    }
  }

  /** What is stored is a catalog the reader takes. */
  lemma StoredIsEntries(a: Archive, parent: Option<Id>, base: Base, source: seq<SourceEntry>, s: Stored,
      sealed: Content -> nat)
    requires Good(a) && IsBase(a, parent, base) && AreStored(base, source, s) && |s.entries| == |source|
    requires Acceptable(source, |source|) && Sizable(source, sealed)
    ensures IsEntries(s.entries, |s.contents|)
  {
    hide Good, EntryProblem, EntryFor, Own, IsEntryName, IsOptionalText;
    forall i | 0 <= i < |s.entries|
      ensures EntryProblem(s.entries[i], Own(s.entries[..i])).None? && s.entries[i].name == source[i].name
    {
      assert source[i] in source;
      EntryIsRead(a, parent, base, source[i], Own(s.entries[..i]));
    }
  }

  /** A pointer finds, from the new backup, what the entry it was made from found. */
  lemma PointerFinds(a: Archive, id: Id, b: Backup, p: Id, known: Entry, e: SourceEntry)
    requires Good(a) && id !in a && Linked(a[id := b]) && b.manifest.parent == Some(p) && p in a
             && known in a[p].catalog.entries
    ensures Finds(a[id := b], id, Pointer(e, KnownOf(known, p)))
  {
    assert Finds(a, p, known);
    ChainOfNew(a, id, b);
    assert IsManifest(a[id := b][id].manifest);
    hide ChainIn, Walked, Whole, IsManifest;
    var l := Locate(ChainIn(a, p), p, known).value;
    InChain(a, p, l.0);
    assert Locate(ChainIn(a[id := b], id), id, Pointer(e, KnownOf(known, p))) == Ok(l);
  }

  /** An object of its own is found under the key it was put with. */
  lemma OwnFinds(a: Archive, id: Id, b: Backup, e: Entry, n: nat)
    requires Linked(a) && id !in a && Linked(a[id := b]) && n < |b.contents| == |b.manifest.objects|
    requires e.at.Here? && e.key == KeyOf(n) && b.manifest.objects[n].key == KeyOf(n)
    requires e.sha == Sha(b.contents[n]) && e.size == |b.contents[n]|
    ensures Finds(a[id := b], id, e)
  {
    ChainOfNew(a, id, b);
  }

  // ----- create.ts

  /** The manifest and the catalog that `finish` makes of the stored entries. */
  function Written(id: Id, kind: Kind, parent: Option<Id>, recipients: seq<Text>, sourceKind: Text,
      position: Option<Text>, s: Stored, catalogSize: nat, sealed: Content -> nat): Backup {
    Backup(Manifest(id, kind, parent, recipients, StoredObject(CatalogAge, catalogSize, true),
      ObjectsOf(s.contents, sealed)),
           Catalog(sourceKind, s.entries, position), s.contents)
  }

  lemma KeyFits(n: nat)
    requires n < MANIFEST_MAX_BYTES
    ensures IsObjectKey(KeyOf(n))
  {
    assert PowerOfTen(3) == 1000;
    assert PowerOfTen(6) == 1_000_000;
    assert PowerOfTen(9) == 1_000_000_000;
  }

  /** An object key has as many digits as the format takes when the manifest is one it can write. */
  lemma WrittenIsManifest(b: Backup, s: Stored, sealed: Content -> nat, sizeOf: Manifest -> nat)
    requires b.contents == s.contents && b.manifest.objects == ObjectsOf(s.contents, sealed)
    requires forall c | c in s.contents :: sealed(c) <= SAFE_MAX
    requires b.manifest.catalog.key.CatalogAge? && b.manifest.catalog.hex && 0 <= b.manifest.catalog.size <= SAFE_MAX
    requires |b.manifest.objects| <= sizeOf(b.manifest) <= MANIFEST_MAX_BYTES
    ensures IsObjects(b.manifest.catalog, b.manifest.objects)
  {
    forall i | 0 <= i < |b.manifest.objects| ensures ObjectProblem(b.manifest.objects[i]).None? {
      assert s.contents[i] in s.contents;
      KeyFits(i);
    }
  }

  lemma {:induction false} OwnWithin(entries: seq<Entry>, i: nat)
    requires i < |entries| && entries[i].at.Here?
    ensures Own(entries[..i]) < Own(entries)
    decreases |entries|
  {
    var before := entries[..|entries| - 1];
    if i < |before| {
      OwnWithin(before, i);
      assert before[..i] == entries[..i];
    }
  }

  /** Every entry of a new backup is found from it, with the bytes its digest says. */
  lemma NewFinds(a: Archive, id: Id, b: Backup, base: Base, source: seq<SourceEntry>, s: Stored, sealed: Content -> nat,
      i: nat)
    requires Good(a) && id !in a && Linked(a[id := b]) && (b.manifest.parent.Some? ==> b.manifest.parent.value in a)
    requires IsBase(a, b.manifest.parent, base) && AreStored(base, source, s) && i < |s.entries|
    requires b.contents == s.contents && b.manifest.objects == ObjectsOf(s.contents, sealed)
    ensures Finds(a[id := b], id, s.entries[i])
  {
    var e, own := source[i], Own(s.entries[..i]);
    assert s.entries[i] == EntryFor(base, e, own);
    if s.entries[i].at.Here? {
      OwnFinds(a, id, b, s.entries[i], own);
    } else {
      var p := b.manifest.parent.value;
      var known :| known in a[p].catalog.entries && known.name == e.name && base[e.name] == KnownOf(known, p);
      PointerFinds(a, id, b, p, known, e);
    }
  }

  lemma NewIsGood(a: Archive, id: Id, b: Backup, base: Base, source: seq<SourceEntry>, s: Stored,
      sealed: Content -> nat)
    requires Good(a) && id !in a && Linked(a[id := b]) && (b.manifest.parent.Some? ==> b.manifest.parent.value in a)
    requires IsBase(a, b.manifest.parent, base) && AreStored(base, source, s) && |s.entries| == |source|
    requires Acceptable(source, |source|) && Sizable(source, sealed)
    requires b.contents == s.contents && b.manifest.objects == ObjectsOf(s.contents, sealed)
    requires b.catalog.entries == s.entries && IsOptionalText(b.catalog.position, POSITION_MAX)
    ensures Good(a[id := b])
  {
    StoredIsEntries(a, b.manifest.parent, base, source, s, sealed);
    forall e | e in s.entries ensures Finds(a[id := b], id, e) {
      var i :| 0 <= i < |s.entries| && s.entries[i] == e;
      NewFinds(a, id, b, base, source, s, sealed, i);
    }
    assert GoodBackup(a[id := b], id);
    forall k | k in a ensures GoodBackup(a[id := b], k) { OldStaysGood(a, id, b, k); }
  }

  /** Repositories, and the ids whose manifests read in each. */
  datatype World = World(archive: Archive, repos: map<Repo, set<Id>>)

  ghost predicate Closed(a: Archive, ids: set<Id>) {
    ids <= a.Keys && forall id | id in ids && a[id].manifest.parent.Some? :: a[id].manifest.parent.value in ids
  }

  ghost predicate Inv(w: World) {
    Good(w.archive) && forall r | r in w.repos :: Closed(w.archive, w.repos[r])
  }

  /** Before the first backup there is nothing to be wrong. */
  lemma NothingIsGood(w: World)
    requires w.archive == map[] && forall r | r in w.repos :: w.repos[r] == {}
    ensures Inv(w)
  {
  }

  function There(w: World, r: Repo): Reads
    requires r in w.repos && w.repos[r] <= w.archive.Keys
  {
    Manifests(w.archive, w.repos[r])
  }

  /** A backup to make: what `create` was asked for, and what the source says, given where it was and what it held. */
  datatype Request = Request(id: Id, kind: Kind, from: Option<Repo>, recipients: seq<Text>, sourceKind: Text,
                             source: (Option<Text>, Base) -> seq<SourceEntry>, position: Option<Text>,
                             signed: bool)

  /** `sameRecipients`: as many different ones, and each of the second among the first. */
  predicate SameRecipients(a: seq<Text>, b: seq<Text>): (same: bool)
    ensures same <==> forall r :: r in a <==> r in b
  {
    AllOfAsMany(a, b);
    |set r | r in a| == |set r | r in b| && forall r | r in b :: r in a
  }

  lemma AllOfAsMany(a: seq<Text>, b: seq<Text>)
    ensures |set r | r in a| == |set r | r in b| && (forall r | r in b :: r in a) <==> forall r :: r in a <==> r in b
  {
    var first, second := set r | r in a, set r | r in b;
    assert forall r :: (r in a <==> r in first) && (r in b <==> r in second);
    if |first| == |second| && second <= first { assert first * second == second && |first - second| == 0; }
    if forall r :: r in a <==> r in b { assert first == second; }
  }

  /** Where the source was when the backup built on was made. */
  ghost predicate IsSince(a: Archive, parent: Option<Id>, since: Option<Text>) {
    if parent.None? then since == None else parent.value in a && since == a[parent.value].catalog.position
  }

  /** What a backup is built on, once `baseOf` has found it. */
  datatype Building = Building(parent: Option<Id>, since: Option<Text>, base: Base, failed: set<Repo>)

  /** The repository to look in: the one named, or, of those taking part, the one before all others. */
  ghost predicate IsSource(repositories: seq<Repo>, failed: set<Repo>, from: Option<Repo>, r: Repo) {
    && r in repositories && r !in failed
    && match from
       case Some(name) => r == name
       case None => exists i | 0 <= i < |repositories| :: repositories[i] == r && forall j | 0 <= j < i ::
           repositories[j] in failed
  }

  /** The newest backup of a repository older than the new one, and the newest full one for a differential. */
  ghost predicate IsNewest(w: World, r: Repo, kind: Kind, id: Id, parent: Id)
    requires Inv(w) && r in w.repos
  {
    && parent in w.repos[r] && parent < id && (kind.Differential? ==> w.archive[parent].manifest.kind.Full?)
    && forall other | other in w.repos[r] && other < id
                      && (kind.Differential? ==> w.archive[other].manifest.kind.Full?) :: other <= parent
  }

  /** What a create builds on: nothing for a full one, else the newest that may be built on where it looks. */
  ghost predicate BuildsOn(w: World, repositories: seq<Repo>, locked: set<Repo>, q: Request, parent: Option<Id>)
    requires Inv(w) && forall k | k in repositories :: k in w.repos
  {
    if q.kind.Full? then parent.None?
    else parent.Some? && exists k | IsSource(repositories, locked, q.from, k) ::
           IsNewest(w, k, q.kind, q.id, parent.value)
  }

  /** Why there is nothing to build on. */
  ghost predicate HasNoBase(w: World, repositories: seq<Repo>, locked: set<Repo>, q: Request, e: Refusal)
    requires Inv(w) && forall k | k in repositories :: k in w.repos
  {
    && !q.kind.Full?
    && match e
       case NoRepository => forall k :: !IsSource(repositories, locked, q.from, k)
       case NotFound => exists k | IsSource(repositories, locked, q.from, k) ::
           forall parent :: !IsNewest(w, k, q.kind, q.id, parent)
       case OtherRecipients => exists parent ::
           && BuildsOn(w, repositories, locked, q, Some(parent))
           && !SameRecipients(w.archive[parent].manifest.recipients, q.recipients)
       case OtherKind => exists parent ::
           BuildsOn(w, repositories, locked, q, Some(parent)) && w.archive[parent].catalog.kind != q.sourceKind
       case _ => false
  }

  /** `sourceRepository`: the one named, if it is taking part; with none named, the earliest that is. */
  method SourceRepository(repositories: seq<Repo>, failed: set<Repo>, from: Option<Repo>) returns (r: Option<Repo>)
    ensures r.Some? ==> IsSource(repositories, failed, from, r.value)
    ensures r.None? ==> if from.Some? then from.value !in repositories || from.value in failed
                        else forall k | k in repositories :: k in failed
  {
    for i := 0 to |repositories|
      invariant forall j | 0 <= j < i :: if from.Some? then repositories[j] != from.value else repositories[j] in failed
    {
      var k := repositories[i];
      if if from.Some? then k == from.value else k !in failed {
        return if k in failed then None else Some(k);
      }
    }
    r := None;
  }

  /** A repository that has a backup has its chain. */
  lemma HasItsChain(w: World, r: Repo, id: Id)
    requires Inv(w) && r in w.repos
    ensures w.repos[r] <= w.archive.Keys && (HasChain(There(w, r), id) <==> id in w.repos[r])
  {
    assert Closed(w.archive, w.repos[r]);
    if id in w.repos[r] { LinkedIsWhole(w.archive, w.repos[r], id); }
  }

  /** So those left out for want of the chain are those without the backup. */
  method RequireIt(w: World, repositories: seq<Repo>, failed: set<Repo>, from: Repo, m: Manifest)
    returns (left: set<Repo>)
    requires Inv(w) && forall r | r in repositories :: r in w.repos
    requires from in repositories && from !in failed && m.id in w.repos[from]
    ensures failed <= left && from !in left
    ensures forall r | r in repositories :: r in left <==> r in failed || m.id !in w.repos[r]
  {
    forall r | r in w.repos
      ensures w.repos[r] <= w.archive.Keys && (HasChain(There(w, r), m.id) <==> m.id in w.repos[r])
      ensures AreRead(There(w, r))
    {
      HasItsChain(w, r, m.id);
    }
    left := RequireEverywhere(repositories, map r | r in w.repos :: There(w, r), failed, from, m);
  }

  /** What `newestFor` gives, of the repository rather than of a listing. */
  lemma NewestIs(w: World, r: Repo, q: Request, listing: seq<Id>, m: Option<Manifest>)
    requires Inv(w) && r in w.repos && Listing(w, r, listing) && !q.kind.Full?
    requires m.Some? ==> m.value.id in There(w, r) && There(w, r)[m.value.id] == m.value && m.value.id < q.id
    requires m.Some? ==> (q.kind.Incremental? || m.value.kind.Full?) && forall other |
               other in listing && other in There(w, r) && other < q.id
               && (q.kind.Incremental? || There(w, r)[other].kind.Full?) :: other <= m.value.id
    requires m.None? ==> forall other | other in listing && other in There(w, r) && other < q.id ::
               !q.kind.Incremental? && !There(w, r)[other].kind.Full?
    ensures m.Some? ==> IsNewest(w, r, q.kind, q.id, m.value.id)
    ensures m.None? ==> forall parent :: !IsNewest(w, r, q.kind, q.id, parent)
  {
    hide Good;
    assert Closed(w.archive, w.repos[r]);
  }

  lemma BaseIs(a: Archive, p: Id, base: Base)
    requires p in a
    requires var entries := a[p].catalog.entries;
             && (forall name :: name in base <==> exists i | 0 <= i < |entries| :: entries[i].name == name)
             && forall i | 0 <= i < |entries| ::
               entries[i].name in base && base[entries[i].name] == KnownOf(entries[i], p)
    ensures IsBase(a, Some(p), base)
  {
  }

  /** With the newest found, only its recipients or its source can be wrong. */
  lemma NoOtherBase(w: World, repositories: seq<Repo>, failed: set<Repo>, q: Request, parent: Id)
    requires Inv(w) && !q.kind.Full? && (forall k | k in repositories :: k in w.repos) && parent in w.archive
    requires BuildsOn(w, repositories, failed, q, Some(parent))
    ensures !SameRecipients(w.archive[parent].manifest.recipients, q.recipients) ==>
              HasNoBase(w, repositories, failed, q, OtherRecipients)
    ensures w.archive[parent].catalog.kind != q.sourceKind ==> HasNoBase(w, repositories, failed, q, OtherKind)
  {
    hide BuildsOn, SameRecipients;
  }

  lemma CatalogIsRead(w: World, id: Id)
    requires Inv(w) && id in w.archive
    ensures IsEntries(w.archive[id].catalog.entries, |w.archive[id].manifest.objects|)
    ensures OnceEach(w.archive[id].catalog.entries)
  {
    assert GoodBackup(w.archive, id);
  }

  /** The head of `baseOf`: where to look, and the newest there that may be built on. */
  method LookUp(w: World, repositories: seq<Repo>, failed: set<Repo>, q: Request, listing: Repo -> seq<Id>)
    returns (r: Result<(Repo, Manifest), Refusal>)
    requires Inv(w) && forall k | k in repositories :: k in w.repos
    requires forall k | k in repositories :: Listing(w, k, listing(k))
    requires q.kind != Full
    ensures r.Ok? ==>
              && r.value.0 in repositories && r.value.0 !in failed && r.value.1.id in w.repos[r.value.0]
              && r.value.1.id in w.archive && w.archive[r.value.1.id].manifest == r.value.1 && r.value.1.id < q.id
              && BuildsOn(w, repositories, failed, q, Some(r.value.1.id))
    ensures r.Err? ==> r.error in {NoRepository, NotFound} && HasNoBase(w, repositories, failed, q, r.error)
  {
    var named := SourceRepository(repositories, failed, q.from);
    if named.None? { return Err(NoRepository); }
    var there := There(w, named.value);
    var newest := NewestFor(listing(named.value), there, q.id, q.kind);
    NewestIs(w, named.value, q, listing(named.value), newest);
    if newest.None? { return Err(NotFound); }
    HasItsChain(w, named.value, newest.value.id);
    var chain := ChainOf(there, newest.value);
    if chain.Err? { assert false; }
    r := Ok((named.value, newest.value));
  }

  /** `baseOf`: which backup to build on, who can, and the entries its catalog lists. */
  method BaseOf(w: World, repositories: seq<Repo>, failed: set<Repo>, q: Request, listing: Repo -> seq<Id>)
    returns (r: Result<Building, Refusal>)
    requires Inv(w) && forall k | k in repositories :: k in w.repos
    requires forall k | k in repositories :: Listing(w, k, listing(k))
    requires q.kind != Full
    ensures r.Ok? ==>
              && r.value.parent.Some? && r.value.parent.value in w.archive && r.value.parent.value < q.id
              && IsBase(w.archive, r.value.parent, r.value.base) && IsSince(w.archive, r.value.parent, r.value.since)
              && failed <= r.value.failed && (exists k | k in repositories :: k !in r.value.failed)
              && (forall k | k in repositories ::
                    k in r.value.failed <==> k in failed || r.value.parent.value !in w.repos[k])
              && SameRecipients(w.archive[r.value.parent.value].manifest.recipients, q.recipients)
              && w.archive[r.value.parent.value].catalog.kind == q.sourceKind
    ensures r.Ok? ==> BuildsOn(w, repositories, failed, q, r.value.parent)
    ensures r.Err? ==> r.error in {NoRepository, NotFound, OtherRecipients, OtherKind}
                       && HasNoBase(w, repositories, failed, q, r.error)
  {
    var found := LookUp(w, repositories, failed, q, listing);
    if found.Err? { return Err(found.error); }
    var (named, m) := found.value;
    CatalogIsRead(w, m.id);
    hide *;
    NoOtherBase(w, repositories, failed, q, m.id);
    if !SameRecipients(m.recipients, q.recipients) { return Err(OtherRecipients); }
    var catalog := w.archive[m.id].catalog;
    var problem := EntriesProblem(catalog.entries, |m.objects|);
    if problem.Some? { assert false; }
    if catalog.kind != q.sourceKind { return Err(OtherKind); }
    var left := RequireIt(w, repositories, failed, named, m);
    var base := KnownEntries(catalog.entries, m.id);
    BaseIs(w.archive, m.id, base);
    r := Ok(Building(Some(m.id), catalog.position, base, left));
  }

  /** Why a create is refused. */
  ghost predicate Refuses(w: World, repositories: seq<Repo>, locked: set<Repo>, q: Request, base: Base, e: Refusal)
    requires Inv(w) && forall k | k in repositories :: k in w.repos
  {
    match e
    case BadEntry =>
      exists parent, since ::
        && BuildsOn(w, repositories, locked, q, parent) && IsBase(w.archive, parent, base)
        && IsSince(w.archive, parent, since) && !Acceptable(q.source(since, base), |q.source(since, base)|)
    case BadPosition => !IsOptionalText(q.position, POSITION_MAX)
    case NotStored => true
    case Partial => true
    case _ => HasNoBase(w, repositories, locked, q, e) && exists k | k in repositories :: k !in locked
  }

  /** What a repository lists: the ids whose manifests read there, and perhaps some that do not; in order. */
  ghost predicate Listing(w: World, r: Repo, listing: seq<Id>)
    requires r in w.repos
  {
    (forall i, j | 0 <= i < j < |listing| :: listing[i] < listing[j]) && forall id | id in w.repos[r] :: id in listing
  }

  /** The format's sizes and texts, as the bindings a backup is made with already check them. */
  ghost predicate Bound(q: Request, sealed: Content -> nat, catalogSize: Catalog -> nat, sizeOf: Manifest -> nat) {
    && q.recipients != [] && (forall k | k in q.recipients :: IsRecipient(k))
    && (forall since, base :: Sizable(q.source(since, base), sealed))
    && (forall c :: catalogSize(c) <= SAFE_MAX) && (forall m :: sizeOf(m) >= |m.objects|)
  }

  /** A backup of the archive, made of what the source gave on the base it was given. */
  ghost predicate Recorded(a: Archive, id: Id, b: Backup, base: Base, source: seq<SourceEntry>) {
    && IsBase(a, b.manifest.parent, base) && |b.catalog.entries| == |source|
    && forall i | 0 <= i < |source| :: b.catalog.entries[i] == EntryFor(base, source[i], Own(b.catalog.entries[..i]))
  }

  lemma LinkedWithNew(a: Archive, id: Id, b: Backup)
    requires Linked(a) && id !in a && b.manifest.id == id && IsManifest(b.manifest)
    requires b.manifest.parent.Some? ==> b.manifest.parent.value in a
    ensures Linked(a[id := b])
  {
  }

  /** The manifest makes a backup exist: those that took it have the backup. */
  function WithNew(w: World, id: Id, b: Backup, took: set<Repo>): World {
    World(w.archive[id := b], map r | r in w.repos :: if r in took then w.repos[r] + {id} else w.repos[r])
  }

  lemma WithNewKeepsInv(w: World, id: Id, b: Backup, took: set<Repo>)
    requires Inv(w) && id !in w.archive && Good(w.archive[id := b])
    requires forall r | r in took && r in w.repos && b.manifest.parent.Some? :: b.manifest.parent.value in w.repos[r]
    ensures Inv(WithNew(w, id, b, took))
  {
    hide Good;
    var x := WithNew(w, id, b, took);
    forall r | r in x.repos ensures Closed(x.archive, x.repos[r]) {
      assert Closed(w.archive, w.repos[r]);
    }
  }

  /**
   All that makes a backup: what was asked, what it builds on, what was
   stored of the source, what was written and who took it.
   */
  datatype Making = Making(q: Request, parent: Option<Id>, since: Option<Text>, base: Base, stored: Stored, b: Backup,
                           took: set<Repo>, sealed: Content -> nat, sizeOf: Manifest -> nat)

  function Given(m: Making): seq<SourceEntry> {
    m.q.source(m.since, m.base)
  }

  /** A backup put together as `createBackup` does. */
  ghost predicate IsMade(a: Archive, m: Making) {
    && m.q.id !in a && m.q.recipients != [] && (forall k | k in m.q.recipients :: IsRecipient(k))
    && (m.parent.Some? ==> m.parent.value in a && m.parent.value < m.q.id) && (m.parent.None? <==> m.q.kind.Full?)
    && IsSince(a, m.parent, m.since) && IsBase(a, m.parent, m.base) && AreStored(m.base, Given(m), m.stored)
    && |m.stored.entries| == |Given(m)| && Acceptable(Given(m), |Given(m)|)
    && Sizable(Given(m), m.sealed) && IsOptionalText(m.q.position, POSITION_MAX)
    && 0 <= m.b.manifest.catalog.size <= SAFE_MAX
      && |m.b.manifest.objects| <= m.sizeOf(m.b.manifest) <= MANIFEST_MAX_BYTES
    && m.b == Written(m.q.id, m.q.kind, m.parent, m.q.recipients, m.q.sourceKind, m.q.position, m.stored,
      m.b.manifest.catalog.size, m.sealed)
  }

  /** A create, from world to world: who took its manifest has it, and has the chain it builds on. */
  ghost predicate Creates(w: World, m: Making, x: World) {
    && IsMade(w.archive, m) && x == WithNew(w, m.q.id, m.b, m.took)
    && (forall r | r in m.took && r in w.repos && m.parent.Some? :: m.parent.value in w.repos[r])
  }

  /** What one was made of is what the source gave. */
  lemma MadeIsRecorded(a: Archive, m: Making)
    requires IsMade(a, m)
    ensures Recorded(a, m.q.id, m.b, m.base, Given(m))
  {
    hide Acceptable, Sizable, IsBase, IsOptionalText;
  }

  lemma MadeIsGood(a: Archive, m: Making)
    requires Good(a) && IsMade(a, m)
    ensures Good(a[m.q.id := m.b])
  {
    forall c | c in m.stored.contents ensures m.sealed(c) <= SAFE_MAX
      { ContentsAreGiven(m.base, Given(m), m.stored, c); }
    WrittenIsManifest(m.b, m.stored, m.sealed, m.sizeOf);
    LinkedWithNew(a, m.q.id, m.b);
    NewIsGood(a, m.q.id, m.b, m.base, Given(m), m.stored, m.sealed);
  }

  lemma CreateKeepsInv(w: World, m: Making, x: World)
    requires Inv(w) && Creates(w, m, x)
    ensures Inv(x)
  {
    MadeIsGood(w.archive, m);
    WithNewKeepsInv(w, m.q.id, m.b, m.took);
  }

  /** What `createBackup` has when it comes to `finish`: a making but for what is written and who takes it. */
  ghost predicate IsStored(w: World, all: set<Repo>, failed: set<Repo>, q: Request, parent: Option<Id>,
      since: Option<Text>, known: Base, s: Stored) {
    && Inv(w) && q.id !in w.archive && all <= w.repos.Keys
    && (parent.Some? ==> parent.value in w.archive && parent.value < q.id) && (parent.None? <==> q.kind.Full?)
    && IsSince(w.archive, parent, since) && IsBase(w.archive, parent, known)
    && AreStored(known, q.source(since, known), s)
    && |s.entries| == |q.source(since, known)| && Acceptable(q.source(since, known), |q.source(since, known)|)
    && IsOptionalText(q.position, POSITION_MAX)
    && (forall r | r in all && r !in failed && parent.Some? :: parent.value in w.repos[r])
  }

  /** How many puts come before the manifest's: the objects, the catalog, and the signature when there is one. */
  function PutsBefore(q: Request, s: Stored): nat {
    |s.contents| + if q.signed then 2 else 1
  }

  /**
   Everything is in a repository, its manifest included: no put before that failed there, and nor
   did the manifest's, unless it landed all the same.
   */
  ghost predicate HasAll(down: nat -> set<Repo>, landed: set<Repo>, puts: nat, r: Repo) {
    (forall n | 0 <= n < puts :: r !in down(n)) && (r !in down(puts) || r in landed)
  }

  lemma TookExactly(all: set<Repo>, out: set<Repo>, down: nat -> set<Repo>, landed: set<Repo>, puts: nat,
      left: set<Repo>, took: set<Repo>)
    requires exists failed | LeftOut(all, out, down, puts, failed) ::
               left == all - failed && took == (all - PutAll(all, failed, down(puts))) + left * landed
    ensures forall k :: k in took <==> k in all && k !in out && HasAll(down, landed, puts, k)
  {
  }

  /** The signature, when there is one, and the manifest: who has failed by then, and who took the manifest. */
  method PutLast(all: set<Repo>, before: set<Repo>, signed: bool, down: nat -> set<Repo>, puts: nat,
      landed: set<Repo>, ghost out: set<Repo>) returns (failed: set<Repo>, took: set<Repo>)
    requires LeftOut(all, out, down, puts, before)
    ensures before <= failed && all - failed <= took <= all - before
    ensures forall k | k in all && k !in before && AlwaysUp(down, k) :: k in took
    ensures forall k :: k in took <==>
              k in all && k !in out && HasAll(down, landed, puts + if signed then 1 else 0, k)
  {
    var n := puts;
    failed := before;
    if signed {
      OneMorePut(all, out, down, n, failed);
      failed := PutAll(all, failed, down(n));
      n := n + 1;
    }
    ghost var soFar := failed;
    var left := all - failed;
    failed := PutAll(all, failed, down(n));
    took := (all - failed) + left * landed;
    assert LeftOut(all, out, down, n, soFar);
    TookExactly(all, out, down, landed, n, left, took);
  }

  /** What was stored, written with a manifest of no more than its size and taken by some still in the run. */
  lemma StoredCreates(w: World, all: set<Repo>, before: set<Repo>, m: Making, size: nat)
    requires IsStored(w, all, before, m.q, m.parent, m.since, m.base, m.stored) && m.took <= all - before
    requires m.q.recipients != [] && (forall k | k in m.q.recipients :: IsRecipient(k)) && Sizable(Given(m), m.sealed)
    requires size <= SAFE_MAX && |m.b.manifest.objects| <= m.sizeOf(m.b.manifest) <= MANIFEST_MAX_BYTES
    requires m.b == Written(m.q.id, m.q.kind, m.parent, m.q.recipients, m.q.sourceKind, m.q.position, m.stored, size,
                            m.sealed)
    ensures Creates(w, m, WithNew(w, m.q.id, m.b, m.took))
  {
    hide AreStored, Acceptable, IsBase, Good, Sizable, IsOptionalText;
  }

  lemma NewRepos(w: World, id: Id, b: Backup, took: set<Repo>)
    ensures var x := WithNew(w, id, b, took);
            && x.repos.Keys == w.repos.Keys && (took == {} || id in x.archive)
            && forall k | k in w.repos :: x.repos[k] == if k in took then w.repos[k] + {id} else w.repos[k]
  {
  }

  /**
   `finish`: the catalog, the signature and the manifest last. `down` says who reports a failure at
   each put, and `landed` who took the manifest all the same.
   */
  method Finish(w: World, all: set<Repo>, before: set<Repo>, q: Request, parent: Option<Id>,
      since: Option<Text>, known: Base, s: Stored, down: nat -> set<Repo>, landed: set<Repo>, sealed: Content -> nat,
      catalogSize: Catalog -> nat, sizeOf: Manifest -> nat, ghost out: set<Repo>)
    returns (x: World, r: Result<Backup, Refusal>, ghost m: Making)
    requires IsStored(w, all, before, q, parent, since, known, s) && Bound(q, sealed, catalogSize, sizeOf)
    requires LeftOut(all, out, down, |s.contents|, before)
    ensures m.q == q && m.parent == parent && m.sizeOf == sizeOf && (x == w || Creates(w, m, x))
    ensures x != w ==> m.stored == s && forall k ::
              k in m.took <==> k in all && k !in out && HasAll(down, landed, PutsBefore(q, s), k)
    ensures r.Err? && !r.error.NotStored? && !r.error.Partial? ==>
              x == w && r.error.ManifestTooLarge? && sizeOf(m.b.manifest) > MANIFEST_MAX_BYTES
    ensures x.repos.Keys == w.repos.Keys
    ensures forall k | k in w.repos && (k !in all || k in before) :: x.repos[k] == w.repos[k]
    ensures r.Ok? || r.error.NotStored? || r.error.Partial? ==>
              forall k | k in all && k !in before && AlwaysUp(down, k) :: q.id in x.repos[k]
    ensures r.Ok? ==> Creates(w, m, x) && r.value == m.b && forall k | k in all :: q.id in x.repos[k]
    ensures r.Err? && r.error.Partial? ==> Creates(w, m, x) && exists k | k in all :: q.id in x.repos[k]
  {
    hide AreStored, Acceptable, IsBase, Good, Sizable;
    var puts := |s.contents|;
    OneMorePut(all, out, down, puts, before);
    hide LeftOut, HasAll;
    var failed := PutAll(all, before, down(puts));
    var size := catalogSize(Catalog(q.sourceKind, s.entries, q.position));
    var b := Written(q.id, q.kind, parent, q.recipients, q.sourceKind, q.position, s, size, sealed);
    m := Making(q, parent, since, known, s, b, {}, sealed, sizeOf);
    if sizeOf(b.manifest) > MANIFEST_MAX_BYTES { return w, Err(ManifestTooLarge), m; }
    var took;
    failed, took := PutLast(all, failed, q.signed, down, puts + 1, landed, out);
    hide AlwaysUp;
    m := Making(q, parent, since, known, s, b, took, sealed, sizeOf);
    x := WithNew(w, q.id, b, took);
    StoredCreates(w, all, before, m, size);
    NewRepos(w, q.id, b, took);
    assert all <= w.repos.Keys;
    hide IsStored, Creates, WithNew, Bound, Written;
    assert failed * all == {} ==> forall k | k in all :: k !in failed && k in took;
    assert forall k | k in took :: k in all && q.id in x.repos[k];
    assert !(all <= failed) ==> exists k :: k in all && k !in failed;
    r := if all <= failed then Err(NotStored) else if failed * all != {} then Err(Partial) else Ok(b);
  }

  /** All a create gathers before `finish`: what it builds on, what it stored, and who is left out. */
  datatype Gathered = Gathered(parent: Option<Id>, since: Option<Text>, known: Base, stored: Stored, failed: set<Repo>)

  /** `createBackup` up to `finish`: the backup it builds on, and the entries. */
  method Gather(w: World, repositories: seq<Repo>, locked: set<Repo>, q: Request, listing: Repo -> seq<Id>,
      down: nat -> set<Repo>)
    returns (r: Result<Gathered, Refusal>, ghost base: Base, ghost out: set<Repo>)
    requires Inv(w) && q.id !in w.archive
    requires forall k | k in repositories :: k in w.repos && Listing(w, k, listing(k))
    ensures r.Ok? ==>
              && var g := r.value;
              && IsStored(w, (set k | k in repositories), g.failed, q, g.parent, g.since, g.known, g.stored)
              && BuildsOn(w, repositories, locked, q, g.parent) && locked <= g.failed
              && (forall k | k in repositories && k in g.failed && AlwaysUp(down, k) ::
                    k in locked || (g.parent.Some? && g.parent.value !in w.repos[k]))
              && LeftOut((set k | k in repositories), out, down, |g.stored.contents|, g.failed)
              && forall k | k in repositories ::
                k in out <==> k in locked || (g.parent.Some? && g.parent.value !in w.repos[k])
    ensures r.Err? && r.error.NotStored? ==> forall k | k in repositories && AlwaysUp(down, k) ::
              k in locked || exists parent | BuildsOn(w, repositories, locked, q, Some(parent)) :: parent !in w.repos[k]
    ensures r.Err? ==> Refuses(w, repositories, locked, q, base, r.error) && !r.error.Partial?
  {
    hide AreStored, Acceptable, Good, Closed, AlwaysUp, LeftOut, IsOptionalText, SameRecipients, Listing;
    var all := set k | k in repositories;
    var failed := locked;
    var known: Base := map[];
    var parent: Option<Id> := None;
    var since: Option<Text> := None;
    base, out := known, locked;
    if q.kind != Full && !(all <= failed) {
      var found := BaseOf(w, repositories, failed, q, listing);
      if found.Err? { return Err(found.error), base, out; }
      parent, known, failed := found.value.parent, found.value.base, found.value.failed;
      since := found.value.since;
      base, out := known, failed;
    }
    if all <= failed { return Err(NotStored), base, out; }
    assert BuildsOn(w, repositories, locked, q, parent);
    hide BuildsOn, HasNoBase;
    var stored;
    stored, failed := StoreEntries(q.source(since, known), known, all, failed, down);
    if stored.Err? { return Err(stored.error), base, out; }
    if !IsOptionalText(q.position, POSITION_MAX) { return Err(BadPosition), base, out; }
    if all <= failed { return Err(NotStored), base, out; }
    r := Ok(Gathered(parent, since, known, stored.value, failed));
  }

  /**
   `createBackup`. Whoever fails at whichever put, what every repository then holds is what it held,
   or that and a backup made as it should be. One that was free, has the chain and reports no failure
   has it then; one that was locked, or not asked, is as it was; and a create refused for anything but
   its puts changes nothing.
   */
  method CreateBackup(w: World, repositories: seq<Repo>, locked: set<Repo>, q: Request, listing: Repo -> seq<Id>,
      down: nat -> set<Repo>, landed: set<Repo>, sealed: Content -> nat, catalogSize: Catalog -> nat,
      sizeOf: Manifest -> nat)
    returns (x: World, r: Result<Backup, Refusal>, ghost m: Making)
    requires Inv(w) && q.id !in w.archive && Bound(q, sealed, catalogSize, sizeOf)
    requires forall k | k in repositories :: k in w.repos && Listing(w, k, listing(k))
    ensures Inv(x) && m.q == q && (x == w || Creates(w, m, x))
    ensures r.Err? && !r.error.NotStored? && !r.error.Partial? ==> x == w
    ensures r.Ok? || r.error.Partial? ==> BuildsOn(w, repositories, locked, q, m.parent)
    ensures x != w ==> forall k | k in repositories ::
              k in m.took <==> && k !in locked && (m.parent.Some? ==> m.parent.value in w.repos[k])
                               && HasAll(down, landed, PutsBefore(q, m.stored), k)
    ensures r.Err? ==> Refuses(w, repositories, locked, q, m.base, r.error)
                       || (r.error.ManifestTooLarge? && sizeOf(m.b.manifest) > MANIFEST_MAX_BYTES)
    ensures x.repos.Keys == w.repos.Keys
    ensures forall k | k in w.repos && (k !in repositories || k in locked) :: x.repos[k] == w.repos[k]
    ensures r.Ok? || r.error.NotStored? || r.error.Partial? ==>
              forall k | k in repositories && k !in locked && AlwaysUp(down, k) ::
                (k in x.repos && q.id in x.repos[k])
                || exists parent | BuildsOn(w, repositories, locked, q, Some(parent)) :: parent !in w.repos[k]
    ensures r.Ok? ==> Creates(w, m, x) && r.value == m.b && forall k | k in repositories :: q.id in x.repos[k]
    ensures r.Err? && r.error.Partial? ==> Creates(w, m, x) && exists k | k in repositories :: q.id in x.repos[k]
  {
    hide AreStored, Acceptable, Good, Closed, Sizable, AlwaysUp, IsOptionalText, SameRecipients, Listing;
    hide BuildsOn, HasNoBase, IsBase, LeftOut, HasAll;
    var gathered, base, out := Gather(w, repositories, locked, q, listing, down);
    if gathered.Err? {
      var nothing := Manifest(0, Full, None, [], StoredObject(CatalogAge, 0, true), []);
      var none := Backup(nothing, Catalog([], [], None), []);
      m := Making(q, None, None, base, Stored([], [], 0), none, {}, sealed, sizeOf);
      return w, Err(gathered.error), m;
    }
    var g := gathered.value;
    x, r, m := Finish(w, (set k | k in repositories), g.failed, q, g.parent, g.since, g.known, g.stored, down, landed,
                      sealed, catalogSize, sizeOf, out);
    hide Creates;
    if x != w { CreateKeepsInv(w, m, x); }
  }

  /** Every object's bytes are some entry's of the source. */
  lemma ContentsAreGiven(base: Base, source: seq<SourceEntry>, s: Stored, c: Content)
    requires AreStored(base, source, s) && c in s.contents
    ensures exists e | e in source :: e.content == c
  {
    var n :| 0 <= n < |s.contents| && s.contents[n] == c;
    var i := NthOwn(s.entries, n);
    assert source[i] in source;
  }

  lemma {:induction false} NthOwn(entries: seq<Entry>, n: nat) returns (i: nat)
    requires n < Own(entries)
    ensures i < |entries| && entries[i].at.Here? && Own(entries[..i]) == n
    decreases |entries|
  {
    var before := entries[..|entries| - 1];
    if n < Own(before) {
      i := NthOwn(before, n);
      assert before[..i] == entries[..i];
    } else {
      i := |entries| - 1;
    }
  }

  /** A prune that leaves no child of what it removes leaves every chain whole. */
  lemma PruneKeepsInv(w: World, r: Repo, gone: set<Id>)
    requires Inv(w) && r in w.repos
    requires forall id | id in w.repos[r] - gone && id in w.archive && w.archive[id].manifest.parent.Some? ::
               w.archive[id].manifest.parent.value !in gone
    ensures Inv(w.(repos := w.repos[r := w.repos[r] - gone]))
  {
    hide Good;
    assert Closed(w.archive, w.repos[r]);
  }

  // ----- whole histories

  datatype Step = Create(m: Making) | Prune(r: Repo, gone: set<Id>)

  /** A prune of a repository that leaves no child of what it removes. */
  ghost predicate Prunes(w: World, r: Repo, gone: set<Id>) {
    r in w.repos && forall id | id in w.repos[r] - gone && id in w.archive && w.archive[id].manifest.parent.Some? ::
      w.archive[id].manifest.parent.value !in gone
  }

  ghost predicate IsStep(w: World, step: Step, x: World) {
    match step
    case Create(m) => Creates(w, m, x)
    case Prune(r, gone) => Prunes(w, r, gone) && x == w.(repos := w.repos[r := w.repos[r] - gone])
  }

  /** Repositories that began empty, and every create and prune since. */
  ghost predicate IsHistory(worlds: seq<World>, steps: seq<Step>) {
    && |worlds| == |steps| + 1
    && worlds[0].archive == map[] && (forall r | r in worlds[0].repos :: worlds[0].repos[r] == {})
    && forall i | 0 <= i < |steps| :: IsStep(worlds[i], steps[i], worlds[i + 1])
  }

  lemma {:induction false} HistoryKeepsInv(worlds: seq<World>, steps: seq<Step>, i: nat)
    requires IsHistory(worlds, steps) && i < |worlds|
    ensures Inv(worlds[i])
  {
    if i == 0 {
      NothingIsGood(worlds[0]);
    } else {
      HistoryKeepsInv(worlds, steps, i - 1);
      assert IsStep(worlds[i - 1], steps[i - 1], worlds[i]);
      match steps[i - 1]
      case Create(m) => CreateKeepsInv(worlds[i - 1], m, worlds[i]);
      case Prune(r, gone) => PruneKeepsInv(worlds[i - 1], r, gone);
    }
  }

  /** What a backup's entry is found with does not change: what was made stays as it was made. */
  lemma FoundKept(a: Archive, id: Id, b: Backup, older: Id, e: Entry)
    requires Good(a) && id !in a && Good(a[id := b]) && older in a && Found(a, older, e).Some?
    ensures Found(a[id := b], older, e) == Found(a, older, e)
  {
    ChainKept(a, id, b, older);
  }

  lemma FoundNext(w: World, step: Step, x: World, id: Id, e: Entry)
    requires Inv(w) && Inv(x) && IsStep(w, step, x) && id in w.archive && Found(w.archive, id, e).Some?
    ensures id in x.archive && x.archive[id] == w.archive[id] && Found(x.archive, id, e) == Found(w.archive, id, e)
  {
    hide Found, Good;
    if step.Create? { FoundKept(w.archive, step.m.q.id, step.m.b, id, e); }
  }

  lemma {:induction false} FoundThroughout(worlds: seq<World>, steps: seq<Step>, i: nat, j: nat, id: Id, e: Entry)
    requires IsHistory(worlds, steps) && i <= j < |worlds| && id in worlds[i].archive
    requires Inv(worlds[i]) && Found(worlds[i].archive, id, e).Some?
    ensures id in worlds[j].archive && worlds[j].archive[id] == worlds[i].archive[id] && Inv(worlds[j])
    ensures Found(worlds[j].archive, id, e) == Found(worlds[i].archive, id, e)
    decreases j - i
  {
    hide Found, Good, IsStep;
    if i < j {
      FoundThroughout(worlds, steps, i, j - 1, id, e);
      HistoryKeepsInv(worlds, steps, j);
      assert IsStep(worlds[j - 1], steps[j - 1], worlds[j - 1 + 1]);
      FoundNext(worlds[j - 1], steps[j - 1], worlds[j], id, e);
    }
  }

  // ----- restoring

  /** A fingerprint the base has under its name, given again for other bytes. */
  predicate Misleads(base: Base, e: SourceEntry) {
    e.name in base && SameFingerprint(e, base[e.name]) && base[e.name].sha != Sha(e.content)
  }

  /**
   From any repository that holds a backup, its chain is walked to the end and
   every entry is found there, with its digest's bytes.
   */
  lemma RestoresFrom(w: World, r: Repo, id: Id, e: Entry)
    requires Inv(w) && r in w.repos && id in w.repos[r] && id in w.archive && e in w.archive[id].catalog.entries
    ensures w.repos[r] <= w.archive.Keys && Whole(There(w, r), w.archive[id].manifest)
    ensures var l := Locate(Walked(There(w, r), w.archive[id].manifest), id, e);
            && l.Ok? && l.value.0 in w.repos[r] && l.value.1 < |w.archive[l.value.0].contents|
            && e.sha == Sha(w.archive[l.value.0].contents[l.value.1])
  {
    assert Closed(w.archive, w.repos[r]);
    LinkedIsWhole(w.archive, w.repos[r], id);
    WalkedSame(There(w, r), Manifests(w.archive, w.archive.Keys), w.archive[id].manifest);
    assert Finds(w.archive, id, e);
    WalkedAreThere(There(w, r), w.archive[id].manifest, Locate(ChainIn(w.archive, id), id, e).value.0);
  }

  lemma {:induction false} WalkedAreThere(there: Reads, m: Manifest, k: Id)
    requires Whole(there, m) && k in Walked(there, m) && forall id | id in there :: there[id].id == id
    ensures k == m.id || k in there
    decreases m.id
  {
    if m.parent.Some? && k != m.id { WalkedAreThere(there, there[m.parent.value], k); }
  }

  /** An entry is found, and what is restored is what the source gave, exactly when its fingerprint did not mislead. */
  lemma RestoresTheSource(a: Archive, id: Id, b: Backup, base: Base, source: seq<SourceEntry>, i: nat)
    requires Good(a) && Good(a[id := b]) && id !in a && Recorded(a, id, b, base, source) && i < |source|
    ensures b.catalog.entries[i].name == source[i].name
    ensures Found(a[id := b], id, b.catalog.entries[i]).Some?
    ensures Found(a[id := b], id, b.catalog.entries[i]) == Some(source[i].content) <==> !Misleads(base, source[i])
  {
    assert source[i] in source && b.catalog.entries[i] in b.catalog.entries;
    assert GoodBackup(a[id := b], id);
    assert Finds(a[id := b], id, b.catalog.entries[i]);
  }

  /**
   After any history, from any repository that still holds a backup, its
   chain is walked and every entry is found there.
   */
  lemma HistoryRestores(worlds: seq<World>, steps: seq<Step>, i: nat, r: Repo, id: Id, e: Entry)
    requires IsHistory(worlds, steps) && i < |worlds|
    requires r in worlds[i].repos && id in worlds[i].repos[r] && id in worlds[i].archive
             && e in worlds[i].archive[id].catalog.entries
    ensures var w := worlds[i];
            && w.repos[r] <= w.archive.Keys && Whole(There(w, r), w.archive[id].manifest)
            && var l := Locate(Walked(There(w, r), w.archive[id].manifest), id, e);
               && l.Ok? && l.value.0 in w.repos[r] && l.value.1 < |w.archive[l.value.0].contents|
               && e.sha == Sha(w.archive[l.value.0].contents[l.value.1])
  {
    HistoryKeepsInv(worlds, steps, i);
    RestoresFrom(worlds[i], r, id, e);
  }

  /**
   And what it is, from any repository that still holds the backup, is what the source gave when it
   was made, however much was created and pruned since, exactly when its fingerprint did not mislead.
   */
  lemma HistoryRestoresTheSource(worlds: seq<World>, steps: seq<Step>, i: nat, j: nat, r: Repo, k: nat)
    requires IsHistory(worlds, steps) && i < j < |worlds| && steps[i].Create?
    requires var m := steps[i].m; k < |Given(m)|
    requires r in worlds[j].repos && steps[i].m.q.id in worlds[j].repos[r]
    ensures var w, m := worlds[j], steps[i].m;
            && Inv(w) && m.q.id in w.archive && w.archive[m.q.id] == m.b && k < |m.b.catalog.entries|
            && m.b.catalog.entries[k].name == Given(m)[k].name
            && w.repos[r] <= w.archive.Keys && Whole(There(w, r), m.b.manifest)
            && var l := Locate(Walked(There(w, r), m.b.manifest), m.q.id, m.b.catalog.entries[k]);
               && l.Ok? && l.value.0 in w.repos[r] && l.value.1 < |w.archive[l.value.0].contents|
               && (w.archive[l.value.0].contents[l.value.1] == Given(m)[k].content
                   <==> !Misleads(m.base, Given(m)[k]))
  {
    var m := steps[i].m;
    HistoryKeepsInv(worlds, steps, i);
    HistoryKeepsInv(worlds, steps, i + 1);
    assert Creates(worlds[i], m, worlds[i + 1]);
    MadeIsRecorded(worlds[i].archive, m);
    var source, e := Given(m), m.b.catalog.entries[k];
    RestoresTheSource(worlds[i].archive, m.q.id, m.b, m.base, source, k);
    FoundThroughout(worlds, steps, i + 1, j, m.q.id, e);
    assert e == EntryFor(m.base, source[k], Own(m.b.catalog.entries[..k])) && e in m.b.catalog.entries;
    RestoresFrom(worlds[j], r, m.q.id, e);
  }
}
