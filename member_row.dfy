/** One row of the member list: the quick-status handlers, which each build a
    partial update for this member's id, the birthday-month choices, and the
    rules for which badges the row shows. */
module MemberRow {
  import opened Types
  import opened JsString

  /** A call `onUpdate(id, patch)`. */
  datatype UpdateRequest = UpdateRequest(id: string, patch: MemberPatch)

  /** Flip the "used" flag. The update carries nothing but the flipped flag,
      so applying it flips `isUsed` and keeps every other field. */
  function ToggleUsed(m: Member): (r: UpdateRequest)
    ensures r.id == m.id
    ensures r.patch.(isUsed := None) == EmptyPatch
    ensures r.patch.isUsed.Some?
    ensures ApplyPatch(m, r.patch) == m.(isUsed := !m.isUsed)
  {
    UpdateRequest(m.id, EmptyPatch.(isUsed := Some(!m.isUsed)))
  }

  /** Flip the VIP flag, and nothing else. */
  function ToggleVip(m: Member): (r: UpdateRequest)
    ensures r.id == m.id
    ensures r.patch.(isVip := None) == EmptyPatch
    ensures r.patch.isVip.Some?
    ensures ApplyPatch(m, r.patch) == m.(isVip := !m.isVip)
  {
    UpdateRequest(m.id, EmptyPatch.(isVip := Some(!m.isVip)))
  }

  /** Set the voucher type, and nothing else. */
  function SetType(m: Member, t: VoucherType): (r: UpdateRequest)
    ensures r.id == m.id
    ensures r.patch.(voucherType := None) == EmptyPatch
    ensures r.patch.voucherType.Some?
    ensures ApplyPatch(m, r.patch) == m.(voucherType := t)
  {
    UpdateRequest(m.id, EmptyPatch.(voucherType := Some(t)))
  }

  /** Press the button of month `month`: it clears the month when it is the
      one already set, and sets it otherwise. Only the month changes. */
  function ChooseMonth(m: Member, month: string): (r: UpdateRequest)
    ensures r.id == m.id
    ensures r.patch.(birthdayMonth := None) == EmptyPatch
    ensures r.patch.birthdayMonth.Some?
    ensures var b := ApplyPatch(m, r.patch).birthdayMonth;
            && ApplyPatch(m, r.patch) == m.(birthdayMonth := b)
            && (b == "" || b == month)
            && (month != "" ==> (b == month <==> m.birthdayMonth != month))
  {
    UpdateRequest(m.id, EmptyPatch.(birthdayMonth := Some(if m.birthdayMonth == month then "" else month)))
  }

  /** The record after a handler's update is applied to it. */
  function After(m: Member, r: UpdateRequest): Member {
    ApplyPatch(m, r.patch)
  }

  /** Toggling twice restores the record, for both flags. */
  lemma TogglesAreInvolutions(m: Member)
    ensures After(After(m, ToggleUsed(m)), ToggleUsed(After(m, ToggleUsed(m)))) == m
    ensures After(After(m, ToggleVip(m)), ToggleVip(After(m, ToggleVip(m)))) == m
  {
    var u := After(m, ToggleUsed(m));
    assert u == m.(isUsed := !m.isUsed);
    assert After(u, ToggleUsed(u)) == u.(isUsed := !u.isUsed);
    var v := After(m, ToggleVip(m));
    assert v == m.(isVip := !m.isVip);
    assert After(v, ToggleVip(v)) == v.(isVip := !v.isVip);
  }

  /** Pressing the same month twice restores the original month when it was
      unset or that month; from a different month it ends unset. */
  lemma ChooseMonthTwice(m: Member, month: string)
    requires month != ""
    ensures var m2 := After(After(m, ChooseMonth(m, month)), ChooseMonth(After(m, ChooseMonth(m, month)), month));
            && (m.birthdayMonth == "" || m.birthdayMonth == month ==> m2 == m)
            && (m.birthdayMonth != "" && m.birthdayMonth != month ==> m2 == m.(birthdayMonth := ""))
  {
    var m1 := After(m, ChooseMonth(m, month));
    assert m1 == m.(birthdayMonth := if m.birthdayMonth == month then "" else month);
    assert After(m1, ChooseMonth(m1, month)) == m1.(birthdayMonth := if m1.birthdayMonth == month then "" else month);
  }

  /** The month buttons: "1" to "12", in order. */
  function Months(): (r: seq<string>)
    ensures r == ["1", "2", "3", "4", "5", "6", "7", "8", "9", "10", "11", "12"]
  {
    var r := seq(12, i requires 0 <= i < 12 => NatToString(i + 1));
    assert NatToString(10) == "10" && NatToString(11) == "11" && NatToString(12) == "12";
    r
  }

  /** The documented range of `birthdayMonth`: unset, or one of the months. */
  predicate ValidBirthdayMonth(s: string) {
    s == "" || s in Months()
  }

  /** Pressing a month button keeps `birthdayMonth` in its documented range. */
  lemma ChooseMonthKeepsRange(m: Member, month: string)
    requires month in Months()
    ensures ValidBirthdayMonth(After(m, ChooseMonth(m, month)).birthdayMonth)
  {
  }

  datatype Badge = UsedBadge | VipBadge | ElectronicBadge | PaperBadge | BirthdayBadge(month: string) | PlaceholderBadge

  /** Where a badge sits in the row, top to bottom: used, VIP, voucher type,
      birthday, placeholder. */
  function Rank(b: Badge): nat {
    match b
    case UsedBadge => 0
    case VipBadge => 1
    case ElectronicBadge => 2
    case PaperBadge => 2
    case BirthdayBadge(_) => 3
    case PlaceholderBadge => 4
  }

  /** The badges the row shows, top to bottom. A used record shows only the
      "used" badge; otherwise each status that is set has its badge, and the
      placeholder shows exactly when none is. A birthday badge is always for
      the record's own month, and the badges come in row order, each at most
      once. */
  function Badges(m: Member): (r: seq<Badge>)
    ensures r != []
    ensures m.isUsed ==> r == [UsedBadge]
    ensures UsedBadge in r <==> m.isUsed
    ensures VipBadge in r <==> !m.isUsed && m.isVip
    ensures ElectronicBadge in r <==> !m.isUsed && m.voucherType == Electronic
    ensures PaperBadge in r <==> !m.isUsed && m.voucherType == Paper
    ensures BirthdayBadge(m.birthdayMonth) in r <==> !m.isUsed && m.birthdayMonth != ""
    ensures PlaceholderBadge in r <==> !m.isUsed && !m.isVip && m.voucherType == NoVoucher && m.birthdayMonth == ""
    ensures PlaceholderBadge in r ==> r == [PlaceholderBadge]
    ensures forall b :: b in r && b.BirthdayBadge? ==> b.month == m.birthdayMonth
    ensures forall i, j :: 0 <= i < j < |r| ==> Rank(r[i]) < Rank(r[j])
  {
    if m.isUsed then [UsedBadge]
    else
      var vip := if m.isVip then [VipBadge] else [];
      var kind := match m.voucherType
                  case Electronic => [ElectronicBadge]
                  case Paper => [PaperBadge]
                  case NoVoucher => [];
      var birthday := if m.birthdayMonth != "" then [BirthdayBadge(m.birthdayMonth)] else [];
      var placeholder := if !m.isVip && m.voucherType == NoVoucher && m.birthdayMonth == "" then [PlaceholderBadge] else [];
      var status := vip + kind + birthday;
      assert PlaceholderBadge !in status;
      assert placeholder != [] ==> status == [];
      status + placeholder
  }
}
