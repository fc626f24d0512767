/**
 What a subscription hands over for the server's events, and what a search sync makes of it:
 packages/mongo/src/collection/changes/events.ts and packages/mongo-meilisearch/src/sync/documents.ts.
 */
module Changes {
  // The log is every change of one collection, in the server's order; a point in it is how many
  // changes come before. An event's document is not always the one the change left: an update's is
  // looked up later, or is a post-image the server may no longer have.

  import opened Wrappers

  /** A document's id, named by its key in the index. */
  type Id = nat

  type Content = nat

  /** A document, or none; `deleted` is whether its soft-delete field is set. */
  datatype Version = Gone | Doc(content: Content, deleted: bool)

  /** The server's operation; `sets`: whether an update set or cleared the soft-delete field. */
  datatype Op = Insert | Update(sets: Option<bool>) | Replace | Delete

  datatype Event = Event(id: Id, op: Op, before: Version, after: Version)

  /** What a transform gives: a document to index, null, or something refused. */
  datatype Outcome = Send(body: int) | KeepOut | Refuse

  /**
   How a sync is set up, and what may happen around it: `bornDeleted`, a document may be inserted
   with its soft-delete field set; `expires`, the post-image of an update may be gone when the
   change is read; `late`, tasks of an earlier process may still wait while the index is listed;
   `overlaps`, a run may begin while a flush of one that stopped still goes on.
   */
  datatype Config = Config(transform: Content -> Outcome, softDeletes: bool, images: bool,
                           bornDeleted: bool, expires: bool, late: bool, overlaps: bool)

  /** What the sync should give the index for a version: nothing for one soft-deleted. */
  function View(c: Config, v: Version): Option<Content> {
    if v.Gone? || (c.softDeletes && v.deleted) then None else Some(v.content)
  }

  function VersionAt(log: seq<Event>, i: nat, id: Id): Version
    requires i <= |log|
  {
    if i == 0 then Gone else if log[i - 1].id == id then log[i - 1].after else VersionAt(log, i - 1, id)
  }

  /** An event the server can log after these. */
  predicate Possible(c: Config, log: seq<Event>, i: nat, e: Event)
    requires i <= |log|
  {
    && e.before == VersionAt(log, i, e.id)
    && match e.op {
         case Insert => e.before.Gone? && e.after.Doc? && (c.softDeletes && !c.bornDeleted ==> !e.after.deleted)
         case Delete => e.before.Doc? && e.after.Gone?
         case Replace => e.before.Doc? && e.after.Doc?
         case Update(sets) =>
           && e.before.Doc? && e.after.Doc?
           && e.after.deleted == (if sets.Some? then sets.value else e.before.deleted)
       }
  }

  predicate IsLog(c: Config, log: seq<Event>) {
    forall i | 0 <= i < |log| :: Possible(c, log, i, log[i])
  }

  // ----- toChange

  datatype Kind = Created | Updated | Removed | Restored

  /** `writeTypeOf`: an update or a replacement, once soft deletes and restores are told apart. */
  function WriteKind(c: Config, op: Op, document: Version, before: Option<Version>): Kind
    requires op.Update? || op.Replace?
  {
    var deletedNow :=
      if !c.softDeletes then None
      else if op.Update? then op.sets
      else if document.Doc? then Some(document.deleted)
      else None;
    if deletedNow.None? then Updated
    else if before.Some? then
      if (before.value.Doc? && before.value.deleted) == deletedNow.value then Updated
      else if deletedNow.value then Removed
      else Restored
    else if deletedNow.value then Removed
    else if op.Replace? then Updated
    else Restored
  }

  datatype Heard = Filtered | Told(kind: Kind, document: Version)

  /** `toChange`: what is handed over, or nothing for an update to a soft-deleted document. */
  function ToChange(c: Config, op: Op, document: Version, before: Option<Version>): Heard {
    var kind := match op
      case Insert => Created
      case Delete => Removed
      case _ => WriteKind(c, op, document, before);
    if kind.Updated? && c.softDeletes && document.Doc? && document.deleted then Filtered else Told(kind, document)
  }

  /**
   The document an event comes with: exact for an insert or a replacement,
   looked up at `look` or an image for an update.
   */
  function DocumentOf(c: Config, log: seq<Event>, q: nat, look: nat, missing: bool): Version
    requires q < look <= |log|
  {
    match log[q].op
    case Delete => Gone
    case Update(_) =>
      if c.images then if missing then Gone else log[q].after
      else VersionAt(log, look, log[q].id)
    case _ => log[q].after
  }

  function HeardAt(c: Config, log: seq<Event>, q: nat, look: nat, pre: bool, missing: bool): Heard
    requires q < look <= |log|
  {
    ToChange(c, log[q].op, DocumentOf(c, log, q, look, missing), if pre then Some(log[q].before) else None)
  }

  /** A change between two versions of a document. */
  function Compared(e: Event): Heard
    requires e.before.Doc? && e.after.Doc?
  {
    if e.before.deleted && e.after.deleted then Filtered
    else if e.after.deleted then Told(Removed, e.after)
    else if e.before.deleted then Told(Restored, e.after)
    else Told(Updated, e.after)
  }

  /**
   What a subscriber is told of a change read before the next, where documents are deleted softly. With the
   document before, it is a deletion or a restore exactly when the change made it so, and an update that
   leaves it deleted is not told. Without, the event alone must do: setting the field in an update deletes,
   clearing it there restores, and a replacement is never a restore.
   */
  lemma ToldExactly(c: Config, log: seq<Event>, q: nat, pre: bool)
    requires c.softDeletes && IsLog(c, log) && q < |log|
    ensures var e, heard := log[q], HeardAt(c, log, q, q + 1, pre, false);
            Possible(c, log, q, e) &&
            match e.op
            case Insert => heard == Told(Created, e.after)
            case Delete => heard == Told(Removed, Gone)
            case Replace =>
              if pre then heard == Compared(e)
              else heard == Told(if e.after.deleted then Removed else Updated, e.after)
            case Update(sets) =>
              if pre then heard == Compared(e)
              else if sets.Some? then heard == Told(if sets.value then Removed else Restored, e.after)
              else heard == if e.after.deleted then Filtered else Told(Updated, e.after)
  {
    assert Possible(c, log, q, log[q]);
    assert VersionAt(log, q + 1, log[q].id) == log[q].after;
  }

  // ----- entryOf

  datatype Entry = Upsert(body: int) | Remove

  /** `entryOf`; nothing when the transform's answer is refused. */
  function EntryOf(c: Config, document: Version): Option<Entry> {
    if document.Gone? then Some(Remove)
    else match c.transform(document.content)
      case Send(body) => Some(Upsert(body))
      case KeepOut => Some(Remove)
      case Refuse => None
  }

  /**
   Nothing but a refusal of the transform is refused; what is there and sent is put, and everything
   else, the gone and the kept out, is taken out.
   */
  lemma EntryExactly(c: Config, document: Version)
    ensures EntryOf(c, document).None? <==> document.Doc? && c.transform(document.content).Refuse?
    ensures forall body :: EntryOf(c, document) == Some(Upsert(body)) <==>
              document.Doc? && c.transform(document.content) == Send(body)
    ensures EntryOf(c, document) == Some(Remove) <==> document.Gone? || c.transform(document.content).KeepOut?
  {
    if document.Doc? { assert c.transform(document.content).Send? || !c.transform(document.content).Send?; }
  }

  /** The follower's handler, for a change told. */
  function EntryFor(c: Config, heard: Heard): Option<Entry>
    requires heard.Told?
  {
    EntryOf(c, if heard.kind.Removed? then Gone else heard.document)
  }

  /** What an entry should be for a document whose view is `v`. */
  predicate Fits(c: Config, entry: Entry, v: Option<Content>) {
    match entry
    case Upsert(body) => v.Some? && c.transform(v.value) == Send(body)
    case Remove => v.None? || c.transform(v.value).KeepOut?
  }

  // ----- what has not changed since

  function ViewAt(c: Config, log: seq<Event>, i: nat, id: Id): Option<Content>
    requires i <= |log|
  {
    View(c, VersionAt(log, i, id))
  }

  function ViewNow(c: Config, log: seq<Event>, id: Id): Option<Content> {
    ViewAt(c, log, |log|, id)
  }

  /** From the point on, every change has left the document's view as it was. */
  ghost predicate Steady(c: Config, log: seq<Event>, p: nat, id: Id) {
    forall i | p <= i <= |log| :: ViewAt(c, log, i, id) == ViewNow(c, log, id)
  }

  lemma {:induction false} SamePast(log: seq<Event>, e: Event, i: nat, id: Id)
    requires i <= |log|
    ensures VersionAt(log + [e], i, id) == VersionAt(log, i, id)
  {
    if i > 0 { SamePast(log, e, i - 1, id); }
  }

  lemma LogGrows(c: Config, log: seq<Event>, e: Event)
    requires IsLog(c, log) && Possible(c, log, |log|, e)
    ensures IsLog(c, log + [e])
  {
    var longer := log + [e];
    forall i | 0 <= i < |longer| ensures Possible(c, longer, i, longer[i]) {
      SamePast(log, e, i, longer[i].id);
      assert i < |log| ==> Possible(c, log, i, log[i]);
    }
  }

  /** One more change: what was not steady does not become so, and what still is looks as it did. */
  lemma SteadyBefore(c: Config, log: seq<Event>, e: Event, p: nat, id: Id)
    requires p <= |log| && Steady(c, log + [e], p, id)
    ensures Steady(c, log, p, id) && ViewNow(c, log + [e], id) == ViewNow(c, log, id)
  {
    var longer := log + [e];
    SamePast(log, e, |log|, id);
    assert ViewAt(c, longer, |log|, id) == ViewNow(c, longer, id);
    forall i | p <= i <= |log| ensures ViewAt(c, log, i, id) == ViewNow(c, log, id) {
      SamePast(log, e, i, id);
      assert ViewAt(c, longer, i, id) == ViewNow(c, longer, id);
    }
  }

  /** A change to another document leaves a view as it was. */
  lemma SteadyAcross(c: Config, log: seq<Event>, q: nat, id: Id)
    requires q < |log| && Steady(c, log, q + 1, id) && ViewAt(c, log, q, id) == ViewAt(c, log, q + 1, id)
    ensures Steady(c, log, q, id)
  {
    assert ViewAt(c, log, q + 1, id) == ViewNow(c, log, id);
  }

  /**
   A change handed over, whatever was looked up and whenever, gives the entry the document should
   have unless a later change to it is on its way; and one not handed over changes nothing.
   */
  lemma HeardRight(c: Config, log: seq<Event>, q: nat, look: nat, pre: bool, missing: bool)
    requires IsLog(c, log) && q < look <= |log| && !(c.softDeletes && c.bornDeleted) && !(c.images && missing)
    requires Steady(c, log, q + 1, log[q].id)
    ensures var heard := HeardAt(c, log, q, look, pre, missing);
            && (heard.Filtered? ==> Steady(c, log, q, log[q].id))
            && (heard.Told? && EntryFor(c, heard).Some? ==>
              Fits(c, EntryFor(c, heard).value, ViewNow(c, log, log[q].id)))
  {
    var id := log[q].id;
    assert Possible(c, log, q, log[q]);
    assert ViewAt(c, log, q + 1, id) == ViewNow(c, log, id);
    assert ViewAt(c, log, look, id) == ViewNow(c, log, id);
    if HeardAt(c, log, q, look, pre, missing).Filtered? {
      SteadyAcross(c, log, q, id);
    }
  }
}
