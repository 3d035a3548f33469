/** Applying one action to a selection of downloads (`bulk_download_action` in `routes/downloads.rs`). */
module BulkAction {
  import opened Outcomes

  datatype Status = Pending | Downloading | AwaitingQuality | Completed | Failed | PermanentlyFailed | Skipped | Cleaned

  datatype Kind = Retry | Cancel | Delete

  predicate Allows(k: Kind, s: Status) {
    match k
    case Retry => s.Failed? || s.PermanentlyFailed? || s.Cleaned?
    case Cancel => s.Pending? || s.AwaitingQuality? || s.Downloading?
    case Delete => s.Completed?
  }

  /** Every status but `Skipped` has one action, and no status has two. */
  lemma OneActionPerStatus(k: Kind, s: Status)
    ensures Allows(k, s) <==>
            match s
            case Pending => k == Cancel
            case Downloading => k == Cancel
            case AwaitingQuality => k == Cancel
            case Completed => k == Delete
            case Failed => k == Retry
            case PermanentlyFailed => k == Retry
            case Cleaned => k == Retry
            case Skipped => false
  {}

  type Id = nat

  datatype Video = Video(id: Id, status: Status)

  /** An id reported back: a text that is no id at all, or an id. */
  datatype Entry = Malformed(raw: string) | Known(id: Id)

  datatype Report = Report(succeeded: seq<Id>, ineligible: seq<Id>, notFound: seq<Entry>, failed: seq<Id>)

  datatype Outcome = BadRequest | LoadFailed | Accepted(report: Report)

  predicate Distinct(ids: seq<Id>) {
    forall i, j | 0 <= i < j < |ids| :: ids[i] != ids[j]
  }

  function Ids(videos: seq<Video>): seq<Id> {
    seq(|videos|, i requires 0 <= i < |videos| => videos[i].id)
  }

  /** What a success means for the row; a cancellation leaves that to the supervisor. */
  ghost predicate Done(kind: Kind, status: Status) {
    (kind.Retry? ==> status == Pending) && (kind.Delete? ==> status == Cleaned)
  }

  /** What a failure leaves: a delete the row as it was, a retry that or the reset status. */
  ghost predicate Undone(kind: Kind, before: Status, after: Status) {
    (kind.Retry? ==> after == before || after == Pending) && (kind.Delete? ==> after == before)
  }

  /** The videos table and the workers that act on it; each may fail at any point. */
  class Store {
    var statuses: map<Id, Status>

    /** `list_videos_by_ids`: each existing requested video once. */
    method ListVideosByIds(ids: seq<Id>) returns (r: Result<seq<Video>, string>)
      ensures r.Ok? ==>
                && Distinct(Ids(r.value))
                && (forall id :: id in Ids(r.value) <==> id in ids && id in statuses)
                && (forall v | v in r.value :: v.id in statuses && v.status == statuses[v.id])
    {
      var down: bool := *;
      if down {
        return Err("database unavailable");
      }
      var videos: seq<Video> := [];
      for n := 0 to |ids|
        invariant Distinct(Ids(videos))
        invariant forall id :: id in Ids(videos) <==> id in ids[..n] && id in statuses
        invariant forall v | v in videos :: v.id in statuses && v.status == statuses[v.id]
      {
        if ids[n] in statuses && ids[n] !in Ids(videos) {
          assert Ids(videos + [Video(ids[n], statuses[ids[n]])]) == Ids(videos) + [ids[n]];
          videos := videos + [Video(ids[n], statuses[ids[n]])];
        }
        assert ids[..n + 1] == ids[..n] + [ids[n]];
      }
      assert ids[..|ids|] == ids;
      r := Ok(videos);
    }

    /** `retry_one`: the status is reset first; a later failure leaves it reset. */
    method RetryOne(id: Id) returns (ok: bool)
      modifies this
      ensures statuses == old(statuses) || statuses == old(statuses)[id := Pending]
      ensures ok ==> statuses == old(statuses)[id := Pending]
    {
      var written: bool := *;
      if !written {
        return false;
      }
      statuses := statuses[id := Pending];
      ok := *;
    }

    /** The supervisor's cancellation; what it leaves in the row is its own business. */
    method CancelOne(id: Id) returns (ok: bool)
      modifies this
      ensures statuses == old(statuses) || (id in statuses && statuses == old(statuses)[id := statuses[id]])
    {
      var written: bool := *;
      if written {
        var left: Status := *;
        statuses := statuses[id := left];
      }
      ok := *;
    }

    /** `delete_one`: the row is marked only after the file is gone. */
    method DeleteOne(id: Id) returns (ok: bool)
      modifies this
      ensures statuses == if ok then old(statuses)[id := Cleaned] else old(statuses)
    {
      ok := *;
      if ok {
        statuses := statuses[id := Cleaned];
      }
    }

    method Act(kind: Kind, id: Id) returns (ok: bool)
      requires id in statuses
      modifies this
      ensures statuses.Keys == old(statuses.Keys)
      ensures forall other | other in statuses && other != id :: statuses[other] == old(statuses)[other]
      ensures ok ==> Done(kind, statuses[id])
      ensures !ok ==> Undone(kind, old(statuses)[id], statuses[id])
    {
      match kind
      case Retry => ok := RetryOne(id);
      case Cancel => ok := CancelOne(id);
      case Delete => ok := DeleteOne(id);
    }
  }

  /** The well-formed ids of a request, in order. */
  function Parsed(raws: seq<string>, parse: string -> Option<Id>): seq<Id> {
    if raws == [] then []
    else Parsed(raws[..|raws| - 1], parse) + match parse(raws[|raws| - 1]) case Some(id) => [id] case None => []
  }

  function Unparsed(raws: seq<string>, parse: string -> Option<Id>): seq<Entry> {
    if raws == [] then []
    else
      var last := raws[|raws| - 1];
      Unparsed(raws[..|raws| - 1], parse) + match parse(last) case Some(_) => [] case None => [Malformed(last)]
  }

  function Missing(ids: seq<Id>, present: set<Id>): seq<Entry> {
    if ids == [] then []
    else Missing(ids[..|ids| - 1], present) + if ids[|ids| - 1] in present then [] else [Known(ids[|ids| - 1])]
  }

  /** The loaded videos that can (`take`) or cannot take the action, in order. */
  function Chosen(kind: Kind, videos: seq<Video>, take: bool): seq<Id> {
    if videos == [] then []
    else
      var last := videos[|videos| - 1];
      Chosen(kind, videos[..|videos| - 1], take) + if Allows(kind, last.status) == take then [last.id] else []
  }

  /** Where one id of the request ends up. */
  function Places(r: Report, id: Id): nat {
    multiset(r.succeeded)[id] + multiset(r.ineligible)[id] + multiset(r.failed)[id]
    + if Known(id) in r.notFound then 1 else 0
  }

  /** Splitting the request into ids and texts that are none; the latter are reported as not found. */
  method ParseIds(raws: seq<string>, parse: string -> Option<Id>) returns (ids: seq<Id>, notFound: seq<Entry>)
    ensures ids == Parsed(raws, parse) && notFound == Unparsed(raws, parse)
  {
    ids, notFound := [], [];
    for n := 0 to |raws|
      invariant ids == Parsed(raws[..n], parse) && notFound == Unparsed(raws[..n], parse)
    {
      assert raws[..n + 1][..n] == raws[..n];
      match parse(raws[n])
      case Some(id) => ids := ids + [id];
      case None => notFound := notFound + [Malformed(raws[n])];
    }
    assert raws[..|raws|] == raws;
  }

  method FindMissing(ids: seq<Id>, videos: seq<Video>, ghost present: set<Id>) returns (missing: seq<Entry>)
    requires forall id :: id in Ids(videos) <==> id in ids && id in present
    ensures missing == Missing(ids, present)
  {
    missing := [];
    for n := 0 to |ids|
      invariant missing == Missing(ids[..n], present)
    {
      assert ids[..n + 1][..n] == ids[..n] && ids[n] in ids;
      if ids[n] !in Ids(videos) {
        missing := missing + [Known(ids[n])];
      }
    }
    assert ids[..|ids|] == ids;
  }

  /** The partition loop. */
  method ApplyToAll(kind: Kind, videos: seq<Video>, store: Store)
    returns (succeeded: seq<Id>, ineligible: seq<Id>, failed: seq<Id>)
    requires Distinct(Ids(videos)) && forall v | v in videos :: v.id in store.statuses
    modifies store
    ensures store.statuses.Keys == old(store.statuses.Keys)
    ensures ineligible == Chosen(kind, videos, false)
    ensures multiset(succeeded) + multiset(failed) == multiset(Chosen(kind, videos, true))
    ensures forall id | id in store.statuses && id !in Chosen(kind, videos, true) ::
              store.statuses[id] == old(store.statuses)[id]
    ensures forall id | id in succeeded :: id in store.statuses && Done(kind, store.statuses[id])
    ensures forall id | id in failed ::
              id in store.statuses && Undone(kind, old(store.statuses)[id], store.statuses[id])
  {
    succeeded, ineligible, failed := [], [], [];
    ghost var taken: seq<Id> := [];
    ghost var before := store.statuses;
    for n := 0 to |videos|
      invariant taken == Chosen(kind, videos[..n], true) && ineligible == Chosen(kind, videos[..n], false)
      invariant Progress(kind, store, before, taken, succeeded, failed)
    {
      var video := videos[n];
      ChosenNext(kind, videos, n);
      if !Allows(kind, video.status) {
        ineligible := ineligible + [video.id];
      } else {
        NotYetChosen(kind, videos, n, true);
        assert video in videos;
        succeeded, failed := Attempt(kind, video.id, store, before, taken, succeeded, failed);
        taken := taken + [video.id];
      }
    }
    assert videos[..|videos|] == videos;
  }

  /** After acting on the ids `taken`: each is a success or a failure, and no other row has changed. */
  ghost predicate Progress(kind: Kind, store: Store, before: map<Id, Status>, taken: seq<Id>,
                           succeeded: seq<Id>, failed: seq<Id>)
    reads store
  {
    && store.statuses.Keys == before.Keys
    && multiset(succeeded) + multiset(failed) == multiset(taken)
    && (forall id | id in store.statuses && id !in taken :: store.statuses[id] == before[id])
    && (forall id | id in succeeded :: id in store.statuses && Done(kind, store.statuses[id]))
    && (forall id | id in failed :: id in store.statuses && Undone(kind, before[id], store.statuses[id]))
  }

  /** One eligible video: act on it and note how it went. */
  method Attempt(kind: Kind, id: Id, store: Store, ghost before: map<Id, Status>, ghost taken: seq<Id>,
                 succeeded: seq<Id>, failed: seq<Id>)
    returns (succeeded': seq<Id>, failed': seq<Id>)
    requires Progress(kind, store, before, taken, succeeded, failed) && id in before && id !in taken
    modifies store
    ensures Progress(kind, store, before, taken + [id], succeeded', failed')
  {
    SumExcludes(succeeded, failed, taken, id);
    var ok := store.Act(kind, id);
    succeeded' := if ok then succeeded + [id] else succeeded;
    failed' := if ok then failed else failed + [id];
  }

  lemma ChosenNext(kind: Kind, videos: seq<Video>, n: nat)
    requires n < |videos|
    ensures forall take :: Chosen(kind, videos[..n + 1], take)
                           == Chosen(kind, videos[..n], take)
                              + if Allows(kind, videos[n].status) == take then [videos[n].id] else []
  {
    assert videos[..n + 1][..n] == videos[..n];
  }

  lemma {:induction false} ChosenIff(kind: Kind, videos: seq<Video>, take: bool, id: Id)
    ensures id in Chosen(kind, videos, take) <==> exists v | v in videos :: v.id == id && Allows(kind, v.status) == take
    decreases |videos|
  {
    if videos != [] {
      var before, last := videos[..|videos| - 1], videos[|videos| - 1];
      ChosenIff(kind, before, take, id);
      assert videos == before + [last];
    }
  }

  lemma NotYetChosen(kind: Kind, videos: seq<Video>, n: nat, take: bool)
    requires Distinct(Ids(videos)) && n < |videos|
    ensures videos[n].id !in Chosen(kind, videos[..n], take)
  {
    ChosenIff(kind, videos[..n], take, videos[n].id);
    assert forall i | 0 <= i < n :: videos[i].id == Ids(videos)[i] != Ids(videos)[n];
  }

  lemma SumExcludes(a: seq<Id>, b: seq<Id>, c: seq<Id>, id: Id)
    requires multiset(a) + multiset(b) == multiset(c) && id !in c
    ensures id !in a && id !in b
  {
    assert id !in multiset(c);
    assert multiset(a)[id] + multiset(b)[id] == multiset(c)[id];
  }

  lemma AddToEither(a: seq<Id>, b: seq<Id>, all: seq<Id>, id: Id, first: bool, a': seq<Id>, b': seq<Id>, all': seq<Id>)
    requires multiset(a) + multiset(b) == multiset(all) && all' == all + [id]
    requires a' == a + (if first then [id] else []) && b' == b + (if first then [] else [id])
    ensures multiset(a') + multiset(b') == multiset(all')
  {
    assert a + [] == a && b + [] == b;
  }

  lemma ChosenLast(kind: Kind, videos: seq<Video>, take: bool)
    requires videos != []
    ensures var before, last := videos[..|videos| - 1], videos[|videos| - 1];
            && Chosen(kind, videos, take)
               == Chosen(kind, before, take) + (if Allows(kind, last.status) == take then [last.id] else [])
            && Ids(videos) == Ids(before) + [last.id]
  {}

  /** The two selections together are each loaded video once. */
  lemma {:induction false} ChosenPartition(kind: Kind, videos: seq<Video>)
    ensures multiset(Chosen(kind, videos, true)) + multiset(Chosen(kind, videos, false)) == multiset(Ids(videos))
    decreases |videos|
  {
    if videos != [] {
      var before, last := videos[..|videos| - 1], videos[|videos| - 1];
      ChosenPartition(kind, before);
      ChosenLast(kind, videos, true);
      ChosenLast(kind, videos, false);
      AddToEither(Chosen(kind, before, true), Chosen(kind, before, false), Ids(before), last.id,
                  Allows(kind, last.status), Chosen(kind, videos, true), Chosen(kind, videos, false), Ids(videos));
    }
  }

  /** What the report says, in terms of the request and the rows as they were loaded. */
  ghost predicate Faithful(r: Report, kind: Kind, raws: seq<string>, parse: string -> Option<Id>,
                           before: map<Id, Status>)
  {
    var ids := Parsed(raws, parse);
    && r.notFound == Unparsed(raws, parse) + Missing(ids, before.Keys)
    && (forall id | id in ids :: Places(r, id) == 1)
    && (forall id :: id in r.ineligible <==> id in ids && id in before && !Allows(kind, before[id]))
    && (forall id :: id in r.succeeded || id in r.failed <==> id in ids && id in before && Allows(kind, before[id]))
  }

  lemma {:induction false} ReportIsFaithful(r: Report, kind: Kind, raws: seq<string>, parse: string -> Option<Id>,
                                            before: map<Id, Status>, videos: seq<Video>)
    requires Distinct(Ids(videos)) && forall v | v in videos :: v.id in before && v.status == before[v.id]
    requires forall id :: id in Ids(videos) <==> id in Parsed(raws, parse) && id in before
    requires r.notFound == Unparsed(raws, parse) + Missing(Parsed(raws, parse), before.Keys)
    requires r.ineligible == Chosen(kind, videos, false)
    requires multiset(r.succeeded) + multiset(r.failed) == multiset(Chosen(kind, videos, true))
    ensures Faithful(r, kind, raws, parse, before)
  {
    var ids := Parsed(raws, parse);
    forall id
      ensures id in ids ==> Places(r, id) == 1
      ensures id in r.ineligible <==> id in ids && id in before && !Allows(kind, before[id])
      ensures id in r.succeeded || id in r.failed <==> id in ids && id in before && Allows(kind, before[id])
    {
      MissingIff(ids, before.Keys, id);
      UnparsedIsMalformed(raws, parse, id);
      ChosenPartition(kind, videos);
      EachOnce(Ids(videos), id);
      ChosenMeans(kind, videos, before, id);
      TrueSide(r, kind, videos, id);
    }
  }

  lemma TrueSide(r: Report, kind: Kind, videos: seq<Video>, id: Id)
    requires multiset(r.succeeded) + multiset(r.failed) == multiset(Chosen(kind, videos, true))
    ensures id in r.succeeded || id in r.failed <==> id in Chosen(kind, videos, true)
  {
    assert id in multiset(Chosen(kind, videos, true)) <==> id in multiset(r.succeeded) || id in multiset(r.failed);
  }

  lemma ChosenMeans(kind: Kind, videos: seq<Video>, before: map<Id, Status>, id: Id)
    requires forall v | v in videos :: v.id in before && v.status == before[v.id]
    ensures forall take ::
              id in Chosen(kind, videos, take)
              <==> id in Ids(videos) && id in before && Allows(kind, before[id]) == take
  {
    ChosenIff(kind, videos, true, id);
    ChosenIff(kind, videos, false, id);
    if id in Ids(videos) {
      var i :| 0 <= i < |videos| && Ids(videos)[i] == id;
      assert videos[i] in videos;
    }
    forall v | v in videos && v.id == id
      ensures id in Ids(videos)
    {
      var i :| 0 <= i < |videos| && videos[i] == v;
      assert Ids(videos)[i] == id;
    }
  }

  /**
   Every well-formed id of the request is reported in exactly one place, and
   which place is decided by its status at the start; the malformed ones are
   reported as they came. Only videos that could take the action are touched,
   and a failure leaves its row as `Undone` says.
   */
  method BulkDownloadAction(kind: Kind, raws: seq<string>, parse: string -> Option<Id>, store: Store)
    returns (out: Outcome)
    modifies store
    ensures out.BadRequest? <==> raws == []
    ensures !out.Accepted? ==> store.statuses == old(store.statuses)
    ensures store.statuses.Keys == old(store.statuses.Keys)
    ensures out.Accepted? ==>
              && Faithful(out.report, kind, raws, parse, old(store.statuses))
              && (forall id | id in store.statuses && id !in out.report.succeeded && id !in out.report.failed ::
                    store.statuses[id] == old(store.statuses)[id])
              && (forall id | id in out.report.succeeded :: id in store.statuses && Done(kind, store.statuses[id]))
              && (forall id | id in out.report.failed ::
                    id in store.statuses && Undone(kind, old(store.statuses)[id], store.statuses[id]))
  {
    if raws == [] {
      return BadRequest;
    }
    var ids, notFound := ParseIds(raws, parse);
    var found := store.ListVideosByIds(ids);
    if found.Err? {
      return LoadFailed;
    }
    var videos := found.value;
    ghost var before := store.statuses;
    var missing := FindMissing(ids, videos, before.Keys);
    forall v | v in videos
      ensures v.id in store.statuses
    {}
    var succeeded, ineligible, failed := ApplyToAll(kind, videos, store);
    var report := Report(succeeded, ineligible, notFound + missing, failed);
    ReportIsFaithful(report, kind, raws, parse, before, videos);
    forall id
      ensures id in succeeded || id in failed <==> id in Chosen(kind, videos, true)
    {
      TrueSide(report, kind, videos, id);
    }
    out := Accepted(report);
  }

  lemma {:induction false} ParsedIff(raws: seq<string>, parse: string -> Option<Id>, id: Id)
    ensures id in Parsed(raws, parse) <==> exists raw | raw in raws :: parse(raw) == Some(id)
    decreases |raws|
  {
    if raws != [] {
      var last := |raws| - 1;
      ParsedIff(raws[..last], parse, id);
      assert raws == raws[..last] + [raws[last]];
    }
  }

  lemma {:induction false} UnparsedIff(raws: seq<string>, parse: string -> Option<Id>, raw: string)
    ensures Malformed(raw) in Unparsed(raws, parse) <==> raw in raws && parse(raw).None?
    decreases |raws|
  {
    if raws != [] {
      var last := |raws| - 1;
      UnparsedIff(raws[..last], parse, raw);
      assert raws == raws[..last] + [raws[last]];
    }
  }

  /**
   What the caller can rely on, text by text: an id of the request is reported as
   not found, ineligible, or acted on, as its row was at the start; anything else
   comes back as it was sent; and nothing is reported that was not requested.
   */
  lemma {:induction false} ReportMeans(r: Report, kind: Kind, raws: seq<string>, parse: string -> Option<Id>,
                                       before: map<Id, Status>, raw: string)
    requires Faithful(r, kind, raws, parse, before) && raw in raws
    ensures parse(raw).None? <==> Malformed(raw) in r.notFound
    ensures parse(raw).Some? ==>
              var id := parse(raw).value;
              && (Known(id) in r.notFound <==> id !in before)
              && (id in r.ineligible <==> id in before && !Allows(kind, before[id]))
              && (id in r.succeeded || id in r.failed <==> id in before && Allows(kind, before[id]))
              && Places(r, id) == 1
  {
    UnparsedIff(raws, parse, raw);
    MissingHasNoTexts(Parsed(raws, parse), before.Keys, raw);
    if parse(raw).Some? {
      var id := parse(raw).value;
      ParsedIff(raws, parse, id);
      MissingIff(Parsed(raws, parse), before.Keys, id);
      UnparsedIsMalformed(raws, parse, id);
    }
  }

  lemma {:induction false} MissingHasNoTexts(ids: seq<Id>, present: set<Id>, raw: string)
    ensures Malformed(raw) !in Missing(ids, present)
    decreases |ids|
  {
    if ids != [] {
      MissingHasNoTexts(ids[..|ids| - 1], present, raw);
    }
  }

  /** Nothing is reported that was not requested. */
  lemma {:induction false} OnlyRequestedIsReported(r: Report, kind: Kind, raws: seq<string>,
                                                   parse: string -> Option<Id>, before: map<Id, Status>, id: Id)
    requires Faithful(r, kind, raws, parse, before)
    requires Known(id) in r.notFound || id in r.succeeded || id in r.ineligible || id in r.failed
    ensures exists raw | raw in raws :: parse(raw) == Some(id)
  {
    ParsedIff(raws, parse, id);
    MissingIff(Parsed(raws, parse), before.Keys, id);
    UnparsedIsMalformed(raws, parse, id);
  }

  lemma EachOnce(ids: seq<Id>, id: Id)
    requires Distinct(ids)
    ensures multiset(ids)[id] == if id in ids then 1 else 0
    decreases |ids|
  {
    if ids != [] {
      var last := |ids| - 1;
      assert ids == ids[..last] + [ids[last]];
      EachOnce(ids[..last], id);
    }
  }

  lemma {:induction false} MissingIff(ids: seq<Id>, present: set<Id>, id: Id)
    ensures Known(id) in Missing(ids, present) <==> id in ids && id !in present
    decreases |ids|
  {
    if ids != [] {
      var last := |ids| - 1;
      MissingIff(ids[..last], present, id);
      assert ids == ids[..last] + [ids[last]];
    }
  }

  lemma {:induction false} UnparsedIsMalformed(raws: seq<string>, parse: string -> Option<Id>, id: Id)
    ensures Known(id) !in Unparsed(raws, parse)
    decreases |raws|
  {
    if raws != [] {
      UnparsedIsMalformed(raws[..|raws| - 1], parse, id);
    }
  }
}
