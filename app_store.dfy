/** The application's record store: the member list and the store name, the
    operations that replace them (add, update, delete, clear, import a file,
    merge a shared link), the derived views (search, counts, phone sets),
    the share-link guard, and the choice of where a snapshot is persisted. */
module Store {
  import opened Types
  import opened JsString
  import opened Seqs
  import opened MemberRow
  import opened BirthdayList
  import AddMembers

  // ---------------------------------------------------------------------
  // Pure transforms on the member list

  /** Stamping a batch of drafts: draft `i` gets the `i`-th generated id and
      the `i`-th clock reading, and keeps every other field. */
  function Stamped(drafts: seq<MemberDraft>, freshId: nat -> string, clock: nat -> int): (r: seq<Member>)
    ensures |r| == |drafts|
    ensures forall i :: 0 <= i < |r| ==> Unstamp(r[i]) == drafts[i] && r[i].id == freshId(i) && r[i].createdAt == clock(i)
  {
    var r := seq(|drafts|, i requires 0 <= i < |drafts| => Stamp(drafts[i], freshId(i), clock(i)));
    assert forall i :: 0 <= i < |r| ==> r[i] == Stamp(drafts[i], freshId(i), clock(i));
    r
  }

  /** Update by id: each record carrying the id has the update's fields
      spread over it; every other record is kept. */
  function UpdateById(ms: seq<Member>, id: string, patch: MemberPatch): seq<Member> {
    seq(|ms|, i requires 0 <= i < |ms| => if ms[i].id == id then ApplyPatch(ms[i], patch) else ms[i])
  }

  /** Updating changes only the records carrying the id, overwrites exactly
      the supplied fields there, keeps length and order, does nothing for an
      unknown id or an empty update, and is idempotent. */
  lemma UpdateByIdLaws(ms: seq<Member>, id: string, patch: MemberPatch)
    ensures var r := UpdateById(ms, id, patch);
            && |r| == |ms|
            && (forall i :: 0 <= i < |ms| && ms[i].id != id ==> r[i] == ms[i])
            && (forall i :: 0 <= i < |ms| && ms[i].id == id ==> r[i] == ApplyPatch(ms[i], patch))
            && ((forall i :: 0 <= i < |ms| ==> ms[i].id != id) ==> r == ms)
            && UpdateById(r, id, patch) == r
    ensures UpdateById(ms, id, EmptyPatch) == ms
  {
    var r := UpdateById(ms, id, patch);
    forall i | 0 <= i < |ms| && ms[i].id == id
      ensures ApplyPatch(r[i], patch) == r[i]
    {
      ApplyPatchLaws(ms[i], patch);
    }
    forall i | 0 <= i < |ms|
      ensures ApplyPatch(ms[i], EmptyPatch) == ms[i]
    {
      ApplyPatchLaws(ms[i], patch);
    }
  }

  /** Tapping "used" on row `k` goes through the store by id: every record
      sharing that id (ids can collide after a file import) gets the flipped
      flag of row `k`, and nothing else changes. */
  lemma ToggleUsedThroughStore(ms: seq<Member>, k: nat)
    requires k < |ms|
    ensures var req := ToggleUsed(ms[k]);
            var r := UpdateById(ms, req.id, req.patch);
            && |r| == |ms|
            && r[k] == ms[k].(isUsed := !ms[k].isUsed)
            && forall i :: 0 <= i < |ms| ==>
                 r[i] == if ms[i].id == ms[k].id then ms[i].(isUsed := !ms[k].isUsed) else ms[i]
  {
  }

  /** The keep-test of a delete: records whose id differs. */
  function IdDiffers(id: string): Member -> bool {
    (m: Member) => m.id != id
  }

  function IdEquals(id: string): Member -> bool {
    (m: Member) => m.id == id
  }

  /** Delete by id: keep the records whose id differs. */
  function DeleteById(ms: seq<Member>, id: string): seq<Member> {
    Filter(ms, IdDiffers(id))
  }

  /** Deleting removes every record with the id and keeps every other one,
      in order; exactly as many records go as carry the id. */
  lemma DeleteByIdLaws(ms: seq<Member>, id: string)
    ensures var r := DeleteById(ms, id);
            && (forall m :: m in r <==> m in ms && m.id != id)
            && IsSubsequence(r, ms)
            && |r| + Count(ms, IdEquals(id)) == |ms|
  {
    var r := DeleteById(ms, id);
    forall m ensures m in r <==> m in ms && m.id != id {
      FilterMembers(ms, IdDiffers(id), m);
    }
    FilterIsSubsequence(ms, IdDiffers(id));
    FilterSplit(ms, IdDiffers(id), IdEquals(id));
  }

  // ---------------------------------------------------------------------
  // Import and shared-link payloads

  /** A parsed JSON value, as far as the payload rule looks at it: an array of
      records, `null` (on which reading `.members` throws), or any other value,
      with its `members` field when that is an array and its `storeName`
      field ("" when absent or falsy). */
  datatype Doc =
    | DocArray(items: seq<Member>)
    | DocObject(members: Option<seq<Member>>, storeName: string)
    | DocNull

  /** The value export and share write: `{ storeName, members }`. */
  function ExportDoc(s: Snapshot): Doc {
    DocObject(Some(s.members), s.storeName)
  }

  /** The payload rule: a bare array is a member list with no store name; an
      object with a `members` array gives that list and its store name; any
      other value gives nothing; `null` throws. */
  function Normalise(doc: Doc): (r: Option<Snapshot>)
    ensures r.None? <==> doc.DocNull?
  {
    match doc
    case DocArray(items) => Some(Snapshot(items, ""))
    case DocObject(members, name) =>
      if members.Some? then Some(Snapshot(members.value, name)) else Some(EmptySnapshot)
    case DocNull => None
  }

  /** Normalising undoes exporting, and the two other shapes give what the
      rule says. */
  lemma NormaliseLaws(s: Snapshot, items: seq<Member>, name: string)
    ensures Normalise(ExportDoc(s)) == Some(s)
    ensures Normalise(DocArray(items)) == Some(Snapshot(items, ""))
    ensures Normalise(DocObject(None, name)) == Some(EmptySnapshot)
  {
  }

  /** The file import's ids: a record keeps a non-empty id, and a record at
      index `i` that has no id gets `freshId(i)`. */
  function KeepOrGenerateIds(ms: seq<Member>, freshId: nat -> string): seq<Member> {
    seq(|ms|, i requires 0 <= i < |ms| => ms[i].(id := if ms[i].id != "" then ms[i].id else freshId(i)))
  }

  /** The shared link's ids: every record gets a newly generated one. */
  function RegenerateIds(ms: seq<Member>, freshId: nat -> string): seq<Member> {
    seq(|ms|, i requires 0 <= i < |ms| => ms[i].(id := freshId(i)))
  }

  /** A file import changes only ids, keeps every id that is present (so a
      list whose records all have ids is imported unchanged), and leaves no
      record without an id when the generator never returns ""; a shared-link
      merge replaces every id. */
  lemma IdAssignmentLaws(ms: seq<Member>, freshId: nat -> string)
    ensures var r := KeepOrGenerateIds(ms, freshId);
            && |r| == |ms|
            && (forall i :: 0 <= i < |ms| ==> r[i] == ms[i].(id := r[i].id))
            && (forall i :: 0 <= i < |ms| && ms[i].id != "" ==> r[i].id == ms[i].id)
            && ((forall n :: freshId(n) != "") ==> forall i :: 0 <= i < |ms| ==> r[i].id != "")
            && ((forall i :: 0 <= i < |ms| ==> ms[i].id != "") ==> r == ms)
    ensures var r := RegenerateIds(ms, freshId);
            && |r| == |ms|
            && forall i :: 0 <= i < |ms| ==> r[i] == ms[i].(id := freshId(i))
  {
  }

  /** The store-name rule of both import paths: an incoming name is adopted
      only when it is non-empty and the current name is empty. */
  function AdoptStoreName(current: string, incoming: string): string {
    if incoming != "" && current == "" then incoming else current
  }

  /** A non-empty current name is never replaced; an empty one becomes the
      incoming name (perhaps also empty); adopting twice is adopting once. */
  lemma AdoptStoreNameLaws(current: string, incoming: string)
    ensures current != "" ==> AdoptStoreName(current, incoming) == current
    ensures current == "" ==> AdoptStoreName(current, incoming) == incoming
    ensures AdoptStoreName(AdoptStoreName(current, incoming), incoming) == AdoptStoreName(current, incoming)
  {
  }


  /** The store name before anything is loaded, which is also the value the
      shared-link handler sees: it is registered once, on the first render. */
  const InitialStoreName := ""

  /** The shared-link handler as written: it tests the store name it captured
      on the first render, so only the incoming name decides. */
  function SharedLinkStoreNameAsWritten(current: string, incoming: string): string {
    if incoming != "" && InitialStoreName == "" then incoming else current
  }

  /** With a store name already set, the handler as written replaces it with
      the shared link's name, where the rule keeps it. */
  lemma SharedLinkOverwritesStoreName()
    ensures SharedLinkStoreNameAsWritten("Shop A", "Shop B") == "Shop B"
    ensures AdoptStoreName("Shop A", "Shop B") == "Shop A"
  {
  }

  // ---------------------------------------------------------------------
  // Derived views

  /** The search test: an empty term matches everything; otherwise the
      lowercased name contains the lowercased term or the phone contains the
      term as typed. */
  function MatchesTerm(term: string): Member -> bool {
    (m: Member) => term == "" || Includes(ToLower(m.name), ToLower(term)) || Includes(m.phone, term)
  }

  function FilteredMembers(ms: seq<Member>, term: string): seq<Member> {
    Filter(ms, MatchesTerm(term))
  }

  /** The search keeps input order, shows everything for an empty term, keeps
      exactly the matching records, and a record is always found by its own
      phone and by its own name. */
  lemma SearchLaws(ms: seq<Member>, term: string, m: Member)
    ensures IsSubsequence(FilteredMembers(ms, term), ms)
    ensures FilteredMembers(ms, "") == ms
    ensures m in FilteredMembers(ms, term) <==> m in ms && MatchesTerm(term)(m)
    ensures m in ms ==> m in FilteredMembers(ms, m.phone) && m in FilteredMembers(ms, m.name)
  {
    FilterIsSubsequence(ms, MatchesTerm(term));
    FilterKeepsAll(ms, MatchesTerm(""));
    FilterMembers(ms, MatchesTerm(term), m);
    IncludesBasics(m.phone, m.phone);
    IncludesBasics(ToLower(m.name), ToLower(m.name));
    FilterMembers(ms, MatchesTerm(m.phone), m);
    FilterMembers(ms, MatchesTerm(m.name), m);
  }

  /** The header count: records whose voucher is not used. */
  function ActiveCount(ms: seq<Member>): nat {
    Count(ms, Unused)
  }

  /** The current month as a button value: the zero-based month plus one, in
      decimal. */
  function CurrentMonth(monthIndex: nat): (s: string)
    requires monthIndex < 12
    ensures s == Months()[monthIndex]
    ensures ValidBirthdayMonth(s)
  {
    assert Months() == seq(12, i requires 0 <= i < 12 => NatToString(i + 1));
    NatToString(monthIndex + 1)
  }

  function HasBirthdayIn(month: string): Member -> bool {
    (m: Member) => m.birthdayMonth == month
  }

  /** The records with a birthday in `month`, in order: what the birthday list receives. */
  function BirthdayMembers(ms: seq<Member>, month: string): seq<Member> {
    Filter(ms, HasBirthdayIn(month))
  }

  /** The birthday badge count: birthday records not yet used. */
  function ActiveBirthdayCount(ms: seq<Member>, month: string): nat {
    Count(BirthdayMembers(ms, month), Unused)
  }

  /** The counts are bounded by the list and by each other; the active count
      is zero exactly when every record is used, and the birthday badge shows
      exactly when some unused record has its birthday in the month. */
  lemma CountLaws(ms: seq<Member>, month: string)
    ensures ActiveBirthdayCount(ms, month) <= ActiveCount(ms) <= |ms|
    ensures ActiveCount(ms) == 0 <==> forall i :: 0 <= i < |ms| ==> ms[i].isUsed
    ensures ActiveBirthdayCount(ms, month) > 0 <==>
              exists i :: 0 <= i < |ms| && ms[i].birthdayMonth == month && !ms[i].isUsed
  {
    FilterNarrows(ms, HasBirthdayIn(month), Unused);
    var b := BirthdayMembers(ms, month);
    if ActiveBirthdayCount(ms, month) > 0 {
      var k :| 0 <= k < |b| && Unused(b[k]);
      assert b[k] in b;
      FilterMembers(ms, HasBirthdayIn(month), b[k]);
      var i :| 0 <= i < |ms| && ms[i] == b[k];
      assert ms[i].birthdayMonth == month && !ms[i].isUsed;
    } else {
      forall i | 0 <= i < |ms| && ms[i].birthdayMonth == month
        ensures ms[i].isUsed
      {
        FilterMembers(ms, HasBirthdayIn(month), ms[i]);
        var k :| 0 <= k < |b| && b[k] == ms[i];
      }
    }
  }

  /** The batch path copies the parser's month unchecked, so a month such as
      "04" can be stored. It lies outside the documented range, and the
      record never appears in the birthday list of any month. */
  lemma ParsedMonthOutsideRange(ms: seq<Member>, id: string, now: int, monthIndex: nat)
    requires monthIndex < 12
    ensures var d := AddMembers.ToDraft(AddMembers.Candidate("Alice", "0911000000", Some("04"), None));
            && d.birthdayMonth == "04"
            && !ValidBirthdayMonth(d.birthdayMonth)
            && Stamp(d, id, now) !in BirthdayMembers([Stamp(d, id, now)] + ms, CurrentMonth(monthIndex))
  {
    var m := Stamp(AddMembers.ToDraft(AddMembers.Candidate("Alice", "0911000000", Some("04"), None)), id, now);
    FilterMembers([m] + ms, HasBirthdayIn(CurrentMonth(monthIndex)), m);
  }

  /** The phone set handed to the add dialog, as written: the stored phones,
      untrimmed. */
  function ExistingPhoneNumbers(ms: seq<Member>): set<string> {
    set m | m in ms :: m.phone
  }

  /** The phone set the batch path needs: the stored phones trimmed, the same
      key it looks up. */
  function ExistingPhoneKeys(ms: seq<Member>): set<string> {
    set m | m in ms :: Trim(m.phone)
  }

  lemma TrimPadded()
    ensures Trim(" 0911000000") == "0911000000"
  {
    assert " 0911000000"[1..] == "0911000000";
    assert TrimStart(" 0911000000") == "0911000000";
  }

  /** With the untrimmed phone set, a batch record whose phone carries a
      leading space is added again on every re-import; with the trimmed set
      the second import finds it. */
  lemma PaddedPhoneReimported()
    ensures var parsed := [AddMembers.Candidate("Alice", " 0911000000", None, None)];
            var ms := [Stamp(AddMembers.ToDraft(parsed[0]), "a1", 0)];
            && AddMembers.Accepted(parsed, ExistingPhoneNumbers([]), true) == [AddMembers.ToDraft(parsed[0])]
            && AddMembers.Accepted(parsed, ExistingPhoneNumbers(ms), true) == [AddMembers.ToDraft(parsed[0])]
            && AddMembers.Accepted(parsed, ExistingPhoneKeys(ms), true) == []
  {
    var parsed := [AddMembers.Candidate("Alice", " 0911000000", None, None)];
    var ms := [Stamp(AddMembers.ToDraft(parsed[0]), "a1", 0)];
    TrimPadded();
    assert AddMembers.PhoneKey(parsed[0]) == "0911000000";
    assert ExistingPhoneNumbers(ms) == {" 0911000000"} by {
      assert ms[0] in ms;
    }
    assert ExistingPhoneKeys(ms) == {"0911000000"} by {
      assert ms[0] in ms;
    }
    assert !AddMembers.SeenEarlier(parsed, 0);
    assert ExistingPhoneNumbers([]) == {};
    assert !AddMembers.Dropped(parsed, ExistingPhoneNumbers([]), true, 0);
    assert !AddMembers.Dropped(parsed, ExistingPhoneNumbers(ms), true, 0);
    assert AddMembers.Dropped(parsed, ExistingPhoneKeys(ms), true, 0);
    assert AddMembers.AcceptedUpTo(parsed, ExistingPhoneNumbers([]), true, 1) == [] + [AddMembers.ToDraft(parsed[0])];
    assert AddMembers.AcceptedUpTo(parsed, ExistingPhoneNumbers(ms), true, 1) == [] + [AddMembers.ToDraft(parsed[0])];
    assert AddMembers.AcceptedUpTo(parsed, ExistingPhoneKeys(ms), true, 1) == [] + [];
  }

  /** With the trimmed phone set, importing a batch and then importing the
      same batch again adds nothing the second time and counts every record
      as a duplicate. */
  lemma ReimportAllDuplicates(ms: seq<Member>, parsed: seq<AddMembers.Candidate>, freshId: nat -> string, clock: nat -> int)
    ensures var a := AddMembers.Accepted(parsed, ExistingPhoneKeys(ms), true);
            var ms' := Stamped(a, freshId, clock) + ms;
            && AddMembers.Accepted(parsed, ExistingPhoneKeys(ms'), true) == []
            && AddMembers.Duplicates(parsed, ExistingPhoneKeys(ms'), true) == |parsed|
  {
    var keys := ExistingPhoneKeys(ms);
    var a := AddMembers.Accepted(parsed, keys, true);
    var added := Stamped(a, freshId, clock);
    var ms' := added + ms;
    AddMembers.AllKeysCovered(parsed, keys, |parsed|);
    forall i | 0 <= i < |parsed|
      ensures AddMembers.PhoneKey(parsed[i]) in ExistingPhoneKeys(ms')
    {
      var key := AddMembers.PhoneKey(parsed[i]);
      if key in keys {
        var m :| m in ms && Trim(m.phone) == key;
        assert m in ms';
      } else {
        var dk := AddMembers.DraftKeys(a);
        var k :| 0 <= k < |dk| && dk[k] == key;
        assert Unstamp(added[k]) == a[k];
        assert ms'[k] == added[k];
        assert ms'[k] in ms';
      }
    }
    AddMembers.KnownKeysAllDuplicates(parsed, ExistingPhoneKeys(ms'), |parsed|);
  }

  // ---------------------------------------------------------------------
  // The store

  datatype ImportOutcome =
    | FormatError     // the file is not JSON, or is `null`
    | ContentMismatch // no records in the payload
    | Declined        // the confirmation was refused
    | Imported(count: nat)

  datatype ShareOutcome =
    | NothingToShare
    | TooLarge
    | Link(url: string)

  /** The longest share URL that is offered. */
  const MaxShareUrlLength := 8000

  /** The URL a share link points at: the page address with the encoded
      payload as its `data` parameter. */
  function ShareUrl(base: string, encoded: string): string {
    base + "?data=" + encoded
  }

  class MemberStore {
    var members: seq<Member>
    var storeName: string

    constructor ()
      ensures members == [] && storeName == ""
    {
      members := [];
      storeName := "";
    }

    /** View of the state as a snapshot. */
    function Contents(): Snapshot
      reads this
    {
      Snapshot(members, storeName)
    }

    /** Prepend freshly stamped records. */
    method AddRecords(drafts: seq<MemberDraft>, freshId: nat -> string, clock: nat -> int)
      modifies this
      ensures members == Stamped(drafts, freshId, clock) + old(members)
      ensures |members| == |drafts| + |old(members)|
      ensures members[|drafts|..] == old(members)
      ensures storeName == old(storeName)
    {
      var newItems := Stamped(drafts, freshId, clock);
      members := newItems + members;
      assert members[|drafts|..] == old(members);
    }

    /** Overwrite the supplied fields of every record with the id. */
    method Update(id: string, patch: MemberPatch)
      modifies this
      ensures members == UpdateById(old(members), id, patch)
      ensures storeName == old(storeName)
    {
      members := UpdateById(members, id, patch);
    }

    /** Remove every record with the id. */
    method Delete(id: string)
      modifies this
      ensures members == DeleteById(old(members), id)
      ensures storeName == old(storeName)
    {
      members := DeleteById(members, id);
    }

    /** Empty the list and the store name when confirmed; otherwise nothing. */
    method ClearAll(confirmed: bool)
      modifies this
      ensures confirmed ==> members == [] && storeName == ""
      ensures !confirmed ==> members == old(members) && storeName == old(storeName)
    {
      if confirmed {
        members := [];
        storeName := "";
      }
    }

    /** Import a file. `json` is the parse of its text, `None` when parsing
      threw. The records keep their ids, missing ones are generated, and they
      go in front of the current ones. */
    method ImportFile(json: Option<Doc>, confirmed: bool, freshId: nat -> string) returns (outcome: ImportOutcome)
      modifies this
      ensures outcome == FormatError <==> json.None? || json.value.DocNull?
      ensures json.Some? && !json.value.DocNull? ==>
                var p := Normalise(json.value).value;
                && (outcome == ContentMismatch <==> p.members == [])
                && (outcome == Declined <==> p.members != [] && !confirmed)
                && (outcome.Imported? <==> p.members != [] && confirmed)
                && (outcome.Imported? ==>
                      && outcome.count == |p.members|
                      && members == KeepOrGenerateIds(p.members, freshId) + old(members)
                      && storeName == AdoptStoreName(old(storeName), p.storeName))
      ensures !outcome.Imported? ==> members == old(members) && storeName == old(storeName)
    {
      if json.None? || json.value.DocNull? {
        return FormatError;
      }
      var p := Normalise(json.value).value;
      if |p.members| > 0 {
        if confirmed {
          members := KeepOrGenerateIds(p.members, freshId) + members;
          storeName := AdoptStoreName(storeName, p.storeName);
          outcome := Imported(|p.members|);
        } else {
          outcome := Declined;
        }
      } else {
        outcome := ContentMismatch;
      }
    }

    /** Merge a shared link. `decoded` is the decompressed and parsed
      payload, `None` when there is none or it cannot be read. Every merged
      record gets a new id. Returns whether anything was merged. */
    method MergeSharedLink(decoded: Option<Doc>, confirmed: bool, freshId: nat -> string) returns (merged: bool)
      modifies this
      ensures merged <==> decoded.Some? && !decoded.value.DocNull? && Normalise(decoded.value).value.members != [] && confirmed
      ensures merged ==>
                var p := Normalise(decoded.value).value;
                && members == RegenerateIds(p.members, freshId) + old(members)
                && storeName == AdoptStoreName(old(storeName), p.storeName)
      ensures !merged ==> members == old(members) && storeName == old(storeName)
    {
      merged := false;
      if decoded.Some? && !decoded.value.DocNull? {
        var p := Normalise(decoded.value).value;
        if |p.members| > 0 && confirmed {
          members := RegenerateIds(p.members, freshId) + members;
          storeName := AdoptStoreName(storeName, p.storeName);
          merged := true;
        }
      }
    }

    /** Produce a share link. `base` is the page's origin and path, `encode`
      the serialise-and-compress step. Nothing is changed. */
    method ShareLink(base: string, encode: Doc -> string) returns (outcome: ShareOutcome)
      ensures members == [] <==> outcome == NothingToShare
      ensures members != [] ==>
                var url := ShareUrl(base, encode(ExportDoc(Contents())));
                if |url| > MaxShareUrlLength then outcome == TooLarge else outcome == Link(url)
      ensures outcome.Link? ==> |outcome.url| <= MaxShareUrlLength
    {
      if |members| == 0 {
        return NothingToShare;
      }
      var url := ShareUrl(base, encode(ExportDoc(Snapshot(members, storeName))));
      if |url| > MaxShareUrlLength {
        return TooLarge;
      }
      outcome := Link(url);
    }

    /** The dialog's batch submit against this store: de-duplicate against the
      trimmed stored phones and add what is accepted. */
    method SubmitBatch(batchText: string, parsed: seq<AddMembers.Candidate>, filter: bool, freshId: nat -> string, clock: nat -> int)
      returns (outcome: AddMembers.BatchOutcome)
      modifies this
      ensures AllWhitespace(batchText) <==> outcome == AddMembers.Ignored
      ensures !AllWhitespace(batchText) && parsed == [] ==> outcome == AddMembers.CannotParse
      ensures !AllWhitespace(batchText) && parsed != [] ==>
                var existing := ExistingPhoneKeys(old(members));
                if AddMembers.Accepted(parsed, existing, filter) != []
                then outcome == AddMembers.Added(AddMembers.Accepted(parsed, existing, filter), AddMembers.Duplicates(parsed, existing, filter))
                else outcome == AddMembers.AllDuplicates(|parsed|)
      ensures outcome != AddMembers.NothingValid
      ensures outcome.Added? ==> members == Stamped(outcome.newMembers, freshId, clock) + old(members)
      ensures !outcome.Added? ==> members == old(members)
      ensures storeName == old(storeName)
    {
      outcome := AddMembers.SubmitBatch(batchText, parsed, ExistingPhoneKeys(members), filter);
      if outcome.Added? {
        AddRecords(outcome.newMembers, freshId, clock);
      }
    }

    /** The dialog's single-record submit against this store: an edit
      updates the original record by id, an add prepends one record. */
    method SubmitSingle(mode: AddMembers.FormMode, name: string, phone: string, note: string, filter: bool,
                        freshId: nat -> string, clock: nat -> int)
      returns (outcome: AddMembers.SingleOutcome)
      modifies this
      ensures outcome == AddMembers.SubmitSingle(mode, name, phone, note, ExistingPhoneNumbers(old(members)), filter)
      ensures outcome == AddMembers.DuplicatePhone ==> members == old(members)
      ensures outcome.EditSaved? ==> members == UpdateById(old(members), mode.original.id, outcome.patch)
      ensures outcome.AddOne? ==> members == Stamped([outcome.draft], freshId, clock) + old(members)
      ensures storeName == old(storeName)
    {
      outcome := AddMembers.SubmitSingle(mode, name, phone, note, ExistingPhoneNumbers(members), filter);
      match outcome
      case DuplicatePhone =>
      case EditSaved(patch) =>
        Update(mode.original.id, patch);
      case AddOne(draft) =>
        AddRecords([draft], freshId, clock);
    }
  }

  /** Exporting a list whose records all have ids and importing the file into
      a fresh store gives back the same list and store name; an exported empty
      list is refused as not matching the format. */
  method ExportImportRoundTrip(s: Snapshot, freshId: nat -> string) returns (outcome: ImportOutcome, restored: MemberStore)
    requires forall i :: 0 <= i < |s.members| ==> s.members[i].id != ""
    ensures fresh(restored)
    ensures s.members != [] ==> outcome == Imported(|s.members|) && restored.Contents() == s
    ensures s.members == [] ==> outcome == ContentMismatch && restored.Contents() == EmptySnapshot
  {
    restored := new MemberStore();
    IdAssignmentLaws(s.members, freshId);
    outcome := restored.ImportFile(Some(ExportDoc(s)), true, freshId);
  }

  // ---------------------------------------------------------------------
  // Persistence

  /** The local-storage keys of the guest data. */
  const StorageKey := "checkout-swift-data-simple-v1"
  const StoreNameKey := "checkout-swift-store-name"

  /** The two guest writes: the serialised list and the store name. */
  function WriteLocal(local: map<string, string>, s: Snapshot, encode: seq<Member> -> string): map<string, string> {
    local[StorageKey := encode(s.members)][StoreNameKey := s.storeName]
  }

  /** The guest load: a stored list that is present, non-empty and readable,
      and a stored name that is present and non-empty; "" and [] otherwise. */
  function LoadLocal(local: map<string, string>, decode: string -> Option<seq<Member>>): Snapshot {
    var ms := if StorageKey in local && local[StorageKey] != "" then decode(local[StorageKey]).GetOr([]) else [];
    var name := if StoreNameKey in local then local[StoreNameKey] else "";
    Snapshot(ms, name)
  }

  /** A guest write is read back as written, when the serialisation reads
      back and is never empty (the JSON text of a list never is); the write
      touches no other key, and repeating it changes nothing. */
  lemma LocalRoundTrip(local: map<string, string>, s: Snapshot, encode: seq<Member> -> string,
                       decode: string -> Option<seq<Member>>)
    requires encode(s.members) != "" && decode(encode(s.members)) == Some(s.members)
    ensures LoadLocal(WriteLocal(local, s, encode), decode) == s
    ensures forall k :: k in local && k != StorageKey && k != StoreNameKey ==> WriteLocal(local, s, encode)[k] == local[k]
    ensures WriteLocal(WriteLocal(local, s, encode), s, encode) == WriteLocal(local, s, encode)
  {
  }

  /** Where snapshots go: the browser's local storage, and a cloud table per
      username. */
  class Persistence {
    var local: map<string, string>
    var cloud: map<string, Snapshot>

    constructor (local0: map<string, string>, cloud0: map<string, Snapshot>)
      ensures local == local0 && cloud == cloud0
    {
      local := local0;
      cloud := cloud0;
    }

    /** Persist a snapshot: to the signed-in user's cloud entry (a failed
      save is caught and changes nothing), otherwise to both local keys. */
    method Persist(user: Option<User>, s: Snapshot, cloudOk: bool, encode: seq<Member> -> string)
      modifies this
      ensures user.Some? ==> local == old(local)
      ensures user.Some? && cloudOk ==> cloud == old(cloud)[user.value.username := s]
      ensures user.Some? && !cloudOk ==> cloud == old(cloud)
      ensures user.None? ==> cloud == old(cloud) && local == WriteLocal(old(local), s, encode)
    {
      if user.Some? {
        if cloudOk {
          cloud := cloud[user.value.username := s];
        }
      } else {
        local := local[StorageKey := encode(s.members)];
        local := local[StoreNameKey := s.storeName];
      }
    }
  }
}
