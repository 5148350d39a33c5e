/** The add-members dialog: the batch path, which de-duplicates the records a
    text parser extracted and classifies the outcome, and the single-record
    form, which adds one record or saves an edit behind a duplicate-phone guard. */
module AddMembers {
  import opened Types
  import opened JsString

  /** One record as the text parser returns it; birthday month and note are
      optional. The parser itself is outside the model: its answer for a text
      is an input. */
  datatype Candidate = Candidate(name: string, phone: string, birthdayMonth: Option<string>, note: Option<string>)

  /** The de-duplication key of a candidate: its trimmed phone. */
  function PhoneKey(c: Candidate): string {
    Trim(c.phone)
  }

  /** The draft a kept candidate becomes: name and phone as parsed (the phone
      untrimmed), voucher unused, no voucher type, not VIP, and birthday month
      and note defaulting to "". */
  function ToDraft(c: Candidate): MemberDraft {
    MemberDraft(c.name, c.phone, false, NoVoucher, false, c.birthdayMonth.GetOr(""), c.note.GetOr(""))
  }

  // ---------------------------------------------------------------------
  // Reference definition of the batch de-duplication

  /** Some candidate before index `i` has the same key as candidate `i`. */
  predicate SeenEarlier(parsed: seq<Candidate>, i: nat)
    requires i < |parsed|
  {
    exists j :: 0 <= j < i && PhoneKey(parsed[j]) == PhoneKey(parsed[i])
  }

  /** Candidate `i` is dropped when filtering is on and its key is already in
      the collection or already appeared earlier in the batch. */
  predicate Dropped(parsed: seq<Candidate>, existing: set<string>, filter: bool, i: nat)
    requires i < |parsed|
  {
    filter && (PhoneKey(parsed[i]) in existing || SeenEarlier(parsed, i))
  }

  /** The drafts of the first `n` candidates that are not dropped, in order. */
  function AcceptedUpTo(parsed: seq<Candidate>, existing: set<string>, filter: bool, n: nat): seq<MemberDraft>
    requires n <= |parsed|
  {
    if n == 0 then []
    else AcceptedUpTo(parsed, existing, filter, n - 1)
         + (if Dropped(parsed, existing, filter, n - 1) then [] else [ToDraft(parsed[n - 1])])
  }

  /** The number of the first `n` candidates that are dropped. */
  function DuplicatesUpTo(parsed: seq<Candidate>, existing: set<string>, filter: bool, n: nat): nat
    requires n <= |parsed|
  {
    if n == 0 then 0
    else DuplicatesUpTo(parsed, existing, filter, n - 1)
         + (if Dropped(parsed, existing, filter, n - 1) then 1 else 0)
  }

  /** The indices of the first `n` candidates that are not dropped. */
  function KeptUpTo(parsed: seq<Candidate>, existing: set<string>, filter: bool, n: nat): seq<nat>
    requires n <= |parsed|
  {
    if n == 0 then []
    else KeptUpTo(parsed, existing, filter, n - 1)
         + (if Dropped(parsed, existing, filter, n - 1) then [] else [n - 1])
  }

  function Accepted(parsed: seq<Candidate>, existing: set<string>, filter: bool): seq<MemberDraft> {
    AcceptedUpTo(parsed, existing, filter, |parsed|)
  }

  function Duplicates(parsed: seq<Candidate>, existing: set<string>, filter: bool): nat {
    DuplicatesUpTo(parsed, existing, filter, |parsed|)
  }

  // ---------------------------------------------------------------------
  // Properties of the reference definition

  /** Every candidate is either accepted or counted as a duplicate. */
  lemma {:induction false} CountIdentity(parsed: seq<Candidate>, existing: set<string>, filter: bool, n: nat)
    requires n <= |parsed|
    ensures |AcceptedUpTo(parsed, existing, filter, n)| + DuplicatesUpTo(parsed, existing, filter, n) == n
  {
    if n > 0 {
      CountIdentity(parsed, existing, filter, n - 1);
    }
  }

  /** With filtering off nothing is a duplicate and every candidate becomes
      a draft, in input order. */
  lemma {:induction false} NoFilterAcceptsAll(parsed: seq<Candidate>, existing: set<string>, n: nat)
    requires n <= |parsed|
    ensures DuplicatesUpTo(parsed, existing, false, n) == 0
    ensures AcceptedUpTo(parsed, existing, false, n) == seq(n, i requires 0 <= i < n => ToDraft(parsed[i]))
  {
    if n > 0 {
      NoFilterAcceptsAll(parsed, existing, n - 1);
    }
  }

  /** The accepted drafts are the drafts of the kept candidates, one each. */
  lemma {:induction false} KeptIndices(parsed: seq<Candidate>, existing: set<string>, filter: bool, n: nat)
    requires n <= |parsed|
    ensures var a, kept := AcceptedUpTo(parsed, existing, filter, n), KeptUpTo(parsed, existing, filter, n);
            && |kept| == |a|
            && forall k :: 0 <= k < |kept| ==>
                 && kept[k] < n
                 && !Dropped(parsed, existing, filter, kept[k])
                 && a[k] == ToDraft(parsed[kept[k]])
  {
    if n > 0 {
      KeptIndices(parsed, existing, filter, n - 1);
      var a', kept' := AcceptedUpTo(parsed, existing, filter, n - 1), KeptUpTo(parsed, existing, filter, n - 1);
      if Dropped(parsed, existing, filter, n - 1) {
        assert AcceptedUpTo(parsed, existing, filter, n) == a';
        assert KeptUpTo(parsed, existing, filter, n) == kept';
      } else {
        assert AcceptedUpTo(parsed, existing, filter, n) == a' + [ToDraft(parsed[n - 1])];
        assert KeptUpTo(parsed, existing, filter, n) == kept' + [n - 1];
      }
    }
  }

  /** The kept indices are increasing, so the drafts keep input order, and
      every candidate that is not dropped is among them. */
  lemma {:induction false} KeptInOrder(parsed: seq<Candidate>, existing: set<string>, filter: bool, n: nat)
    requires n <= |parsed|
    ensures var kept := KeptUpTo(parsed, existing, filter, n);
            && (forall k :: 0 <= k < |kept| ==> kept[k] < n)
            && (forall k1, k2 :: 0 <= k1 < k2 < |kept| ==> kept[k1] < kept[k2])
            && (forall i :: 0 <= i < n && !Dropped(parsed, existing, filter, i) ==> i in kept)
  {
    if n > 0 {
      KeptInOrder(parsed, existing, filter, n - 1);
      var kept' := KeptUpTo(parsed, existing, filter, n - 1);
      if Dropped(parsed, existing, filter, n - 1) {
        assert KeptUpTo(parsed, existing, filter, n) == kept';
      } else {
        assert KeptUpTo(parsed, existing, filter, n) == kept' + [n - 1];
      }
    }
  }

  /** Each accepted draft carries its candidate's name, untrimmed phone,
      birthday month and note (both defaulting to ""), and the default status:
      unused, no voucher type, not VIP. */
  lemma AcceptedFields(parsed: seq<Candidate>, existing: set<string>, filter: bool, n: nat)
    requires n <= |parsed|
    ensures var a, kept := AcceptedUpTo(parsed, existing, filter, n), KeptUpTo(parsed, existing, filter, n);
            && |kept| == |a|
            && forall k :: 0 <= k < |a| ==>
              && kept[k] < |parsed|
              && !a[k].isUsed && a[k].voucherType == NoVoucher && !a[k].isVip
              && a[k].name == parsed[kept[k]].name
              && a[k].phone == parsed[kept[k]].phone
              && a[k].birthdayMonth == parsed[kept[k]].birthdayMonth.GetOr("")
              && a[k].note == parsed[kept[k]].note.GetOr("")
  {
    KeptIndices(parsed, existing, filter, n);
  }

  /** With filtering on, no accepted draft's trimmed phone is already in the
      collection, and no two accepted drafts share a trimmed phone. */
  lemma AcceptedKeysFresh(parsed: seq<Candidate>, existing: set<string>, n: nat)
    requires n <= |parsed|
    ensures var a := AcceptedUpTo(parsed, existing, true, n);
            && (forall k :: 0 <= k < |a| ==> Trim(a[k].phone) !in existing)
            && (forall k1, k2 :: 0 <= k1 < k2 < |a| ==> Trim(a[k1].phone) != Trim(a[k2].phone))
  {
    var a, kept := AcceptedUpTo(parsed, existing, true, n), KeptUpTo(parsed, existing, true, n);
    KeptIndices(parsed, existing, true, n);
    KeptInOrder(parsed, existing, true, n);
    forall k1, k2 | 0 <= k1 < k2 < |a| ensures Trim(a[k1].phone) != Trim(a[k2].phone) {
      assert !Dropped(parsed, existing, true, kept[k2]);
      assert Trim(a[k1].phone) == PhoneKey(parsed[kept[k1]]);
    }
  }

  /** The trimmed phones of some drafts, in order. Each key is already in
      trimmed form, so it compares equal to the key of any phone that trims
      to it. */
  function DraftKeys(a: seq<MemberDraft>): (keys: seq<string>)
    ensures |keys| == |a| && forall k :: 0 <= k < |a| ==> keys[k] == Trim(a[k].phone)
    ensures forall k :: 0 <= k < |keys| ==> Trim(keys[k]) == keys[k]
  {
    assert forall k :: 0 <= k < |a| ==> Trim(Trim(a[k].phone)) == Trim(a[k].phone) by {
      forall k | 0 <= k < |a| {
        TrimIdempotent(a[k].phone);
      }
    }
    seq(|a|, k requires 0 <= k < |a| => Trim(a[k].phone))
  }

  /** With filtering on, every key of the batch ends up either in the
      collection or among the accepted drafts' keys. */
  lemma {:induction false} AllKeysCovered(parsed: seq<Candidate>, existing: set<string>, n: nat)
    requires n <= |parsed|
    ensures forall i :: 0 <= i < n ==>
              PhoneKey(parsed[i]) in existing || PhoneKey(parsed[i]) in DraftKeys(AcceptedUpTo(parsed, existing, true, n))
  {
    if n > 0 {
      AllKeysCovered(parsed, existing, n - 1);
      var keys := DraftKeys(AcceptedUpTo(parsed, existing, true, n));
      var keys' := DraftKeys(AcceptedUpTo(parsed, existing, true, n - 1));
      var key := PhoneKey(parsed[n - 1]);
      if Dropped(parsed, existing, true, n - 1) {
        assert keys == keys';
        if key !in existing {
          var j :| 0 <= j < n - 1 && PhoneKey(parsed[j]) == key;
        }
      } else {
        assert keys == keys' + [key];
      }
    }
  }

  /** With filtering on, a batch whose every key is already in the collection
      adds nothing and counts every candidate as a duplicate. */
  lemma {:induction false} KnownKeysAllDuplicates(parsed: seq<Candidate>, existing: set<string>, n: nat)
    requires n <= |parsed|
    requires forall i :: 0 <= i < n ==> PhoneKey(parsed[i]) in existing
    ensures AcceptedUpTo(parsed, existing, true, n) == []
    ensures DuplicatesUpTo(parsed, existing, true, n) == n
  {
    if n > 0 {
      KnownKeysAllDuplicates(parsed, existing, n - 1);
    }
  }

  // ---------------------------------------------------------------------
  // The batch submit

  /** The de-duplicating pass over the parsed candidates: a set of keys seen
      so far, the drafts kept, and a duplicate counter. */
  method DedupeCandidates(parsed: seq<Candidate>, existing: set<string>, filter: bool)
    returns (newMembers: seq<MemberDraft>, duplicateCount: nat)
    ensures newMembers == Accepted(parsed, existing, filter)
    ensures duplicateCount == Duplicates(parsed, existing, filter)
    ensures |newMembers| + duplicateCount == |parsed|
    ensures !filter ==> duplicateCount == 0
    ensures filter ==> forall k :: 0 <= k < |newMembers| ==> Trim(newMembers[k].phone) !in existing
    ensures filter ==> forall k1, k2 :: 0 <= k1 < k2 < |newMembers| ==> Trim(newMembers[k1].phone) != Trim(newMembers[k2].phone)
  {
    newMembers := [];
    var processedPhones: set<string> := {};
    duplicateCount := 0;
    for i := 0 to |parsed|
      invariant newMembers == AcceptedUpTo(parsed, existing, filter, i)
      invariant duplicateCount == DuplicatesUpTo(parsed, existing, filter, i)
      invariant forall key :: key in processedPhones ==> exists j :: 0 <= j < i && PhoneKey(parsed[j]) == key
      invariant forall j :: 0 <= j < i ==> PhoneKey(parsed[j]) in existing || PhoneKey(parsed[j]) in processedPhones
    {
      var p := parsed[i];
      var phoneKey := Trim(p.phone);
      if filter {
        if phoneKey in existing {
          duplicateCount := duplicateCount + 1;
          continue;
        }
        if phoneKey in processedPhones {
          assert SeenEarlier(parsed, i);
          duplicateCount := duplicateCount + 1;
          continue;
        }
      }
      assert !Dropped(parsed, existing, filter, i);
      processedPhones := processedPhones + {phoneKey};
      newMembers := newMembers + [ToDraft(p)];
    }
    CountIdentity(parsed, existing, filter, |parsed|);
    if filter {
      AcceptedKeysFresh(parsed, existing, |parsed|);
    } else {
      NoFilterAcceptsAll(parsed, existing, |parsed|);
    }
  }

  /** What the batch submit ends in. `NothingValid` is the message for a
      non-empty parse that yields neither a record nor a duplicate. */
  datatype BatchOutcome =
    | Ignored
    | CannotParse
    | Added(newMembers: seq<MemberDraft>, duplicateCount: nat)
    | AllDuplicates(duplicateCount: nat)
    | NothingValid

  /** Submit the batch text. `parsed` is the parser's answer for that text,
      `existing` the set of phones already in the collection. A text that is
      blank after trimming is ignored without parsing. The `NothingValid`
      message can never be reached, since every parsed candidate is either
      kept or counted. */
  method SubmitBatch(batchText: string, parsed: seq<Candidate>, existing: set<string>, filter: bool)
    returns (outcome: BatchOutcome)
    ensures AllWhitespace(batchText) <==> outcome == Ignored
    ensures !AllWhitespace(batchText) && parsed == [] ==> outcome == CannotParse
    ensures !AllWhitespace(batchText) && parsed != [] ==>
              if Accepted(parsed, existing, filter) != []
              then outcome == Added(Accepted(parsed, existing, filter), Duplicates(parsed, existing, filter))
              else outcome == AllDuplicates(|parsed|)
    ensures outcome != NothingValid
  {
    TrimEmptyIff(batchText);
    if Trim(batchText) == "" {
      return Ignored;
    }
    if |parsed| > 0 {
      var newMembers, duplicateCount := DedupeCandidates(parsed, existing, filter);
      if |newMembers| > 0 {
        outcome := Added(newMembers, duplicateCount);
      } else if duplicateCount > 0 {
        outcome := AllDuplicates(duplicateCount);
      } else {
        outcome := NothingValid;
      }
    } else {
      outcome := CannotParse;
    }
  }

  /** Two records with distinct phones and an empty collection: both are
      added and none counts as a duplicate. */
  lemma TwoNewRecordsAdded()
    ensures var parsed := [Candidate("Alice", "0911000000", None, None), Candidate("Bob", "0922000000", None, None)];
            |Accepted(parsed, {}, true)| == 2 && Duplicates(parsed, {}, true) == 0
  {
    var parsed := [Candidate("Alice", "0911000000", None, None), Candidate("Bob", "0922000000", None, None)];
    assert PhoneKey(parsed[0]) == "0911000000";
    assert PhoneKey(parsed[1]) == "0922000000";
    assert !SeenEarlier(parsed, 1);
  }

  // ---------------------------------------------------------------------
  // The single-record form

  /** The form edits an existing record when one is passed in (together with
      its save callback), and adds a new one otherwise. */
  datatype FormMode = AddMode | EditMode(original: Member)

  /** The duplicate check starts off when editing and on when adding. */
  function DefaultFilter(mode: FormMode): (on: bool)
    ensures on <==> mode.AddMode?
  {
    match mode
    case AddMode => true
    case EditMode(_) => false
  }

  datatype SingleOutcome =
    | DuplicatePhone
    | EditSaved(patch: MemberPatch)
    | AddOne(draft: MemberDraft)

  /** Submit the form. An add is refused when checking is on and the phone is
      taken; an edit is refused only when checking is on and the phone was
      changed to one that is taken. Otherwise an edit passes on exactly name,
      phone and note, and an add passes on one draft with default status. */
  function SubmitSingle(mode: FormMode, name: string, phone: string, note: string, existing: set<string>, filter: bool)
    : (r: SingleOutcome)
    ensures r == DuplicatePhone <==>
              filter && phone in existing && (mode.EditMode? ==> phone != mode.original.phone)
    ensures r.EditSaved? <==> mode.EditMode? && r != DuplicatePhone
    ensures r.EditSaved? ==> r.patch == EmptyPatch.(name := Some(name), phone := Some(phone), note := Some(note))
    ensures r.AddOne? ==> r.draft == MemberDraft(name, phone, false, NoVoucher, false, "", note)
  {
    match mode
    case EditMode(original) =>
      if filter && phone != original.phone && phone in existing then DuplicatePhone
      else EditSaved(EmptyPatch.(name := Some(name), phone := Some(phone), note := Some(note)))
    case AddMode =>
      if filter && phone in existing then DuplicatePhone
      else AddOne(MemberDraft(name, phone, false, NoVoucher, false, "", note))
  }

  /** With the default setting an edit is never refused, whatever the phone. */
  lemma EditDefaultNeverRefused(original: Member, name: string, phone: string, note: string, existing: set<string>)
    ensures SubmitSingle(EditMode(original), name, phone, note, existing, DefaultFilter(EditMode(original))).EditSaved?
  {
  }
}
