/** The record types of the member list: the three-valued voucher tag with its
    label and colour tables, the member record, the partial update that the
    UI hands to the store, the draft a modal produces before an id and a
    creation time are attached, and the signed-in user. */
module Types {

  datatype Option<T> = None | Some(value: T) {
    function GetOr(default: T): T {
      match this
      case Some(v) => v
      case None => default
    }
  }

  /** The voucher medium a member holds. */
  datatype VoucherType = NoVoucher | Electronic | Paper

  /** The string each voucher type is stored and exchanged as. */
  function VoucherTypeName(t: VoucherType): string {
    match t
    case NoVoucher => "NONE"
    case Electronic => "ELECTRONIC"
    case Paper => "PAPER"
  }

  /** Reads a stored voucher-type string back; anything other than the three
      names is not a voucher type. */
  function ParseVoucherType(s: string): (r: Option<VoucherType>)
    ensures r.Some? ==> VoucherTypeName(r.value) == s
    ensures r.None? ==> s != "NONE" && s != "ELECTRONIC" && s != "PAPER"
  {
    if s == "NONE" then Some(NoVoucher)
    else if s == "ELECTRONIC" then Some(Electronic)
    else if s == "PAPER" then Some(Paper)
    else None
  }

  /** The name table and the parser are inverse to each other, and every
      voucher type has its own name. */
  lemma VoucherTypeNameRoundTrip(t: VoucherType, s: string)
    ensures ParseVoucherType(VoucherTypeName(t)) == Some(t)
    ensures ParseVoucherType(s) == Some(t) <==> s == VoucherTypeName(t)
  {
  }

  /** The display label of each voucher type. */
  function VoucherTypeLabel(t: VoucherType): (r: string)
    ensures r != ""
  {
    match t
    case NoVoucher => "無"
    case Electronic => "電子票券"
    case Paper => "紙本票券"
  }

  /** The badge colour classes of each voucher type. */
  function VoucherTypeColor(t: VoucherType): (r: string)
    ensures r != ""
  {
    match t
    case NoVoucher => "border-gray-200 text-gray-600 bg-gray-50"
    case Electronic => "border-purple-200 text-purple-700 bg-purple-50"
    case Paper => "border-amber-200 text-amber-700 bg-amber-50"
  }

  /** Both tables tell the three voucher types apart. */
  lemma TablesDistinguishTypes(t1: VoucherType, t2: VoucherType)
    ensures VoucherTypeLabel(t1) == VoucherTypeLabel(t2) <==> t1 == t2
    ensures VoucherTypeColor(t1) == VoucherTypeColor(t2) <==> t1 == t2
  {
  }

  /** One tracked customer. `birthdayMonth` is "" (not set) or "1".."12";
      `createdAt` is a millisecond timestamp. */
  datatype Member = Member(
    id: string,
    name: string,
    phone: string,
    isUsed: bool,
    voucherType: VoucherType,
    isVip: bool,
    birthdayMonth: string,
    note: string,
    createdAt: int)

  /** A member record before the store attaches an id and a creation time. */
  datatype MemberDraft = MemberDraft(
    name: string,
    phone: string,
    isUsed: bool,
    voucherType: VoucherType,
    isVip: bool,
    birthdayMonth: string,
    note: string)

  /** A partial update: each present field overwrites the member's field. */
  datatype MemberPatch = MemberPatch(
    id: Option<string>,
    name: Option<string>,
    phone: Option<string>,
    isUsed: Option<bool>,
    voucherType: Option<VoucherType>,
    isVip: Option<bool>,
    birthdayMonth: Option<string>,
    note: Option<string>,
    createdAt: Option<int>)

  const EmptyPatch := MemberPatch(None, None, None, None, None, None, None, None, None)

  /** Object spread of a member and a partial update: the update's fields win. */
  function ApplyPatch(m: Member, p: MemberPatch): Member {
    Member(
      p.id.GetOr(m.id),
      p.name.GetOr(m.name),
      p.phone.GetOr(m.phone),
      p.isUsed.GetOr(m.isUsed),
      p.voucherType.GetOr(m.voucherType),
      p.isVip.GetOr(m.isVip),
      p.birthdayMonth.GetOr(m.birthdayMonth),
      p.note.GetOr(m.note),
      p.createdAt.GetOr(m.createdAt))
  }

  /** The empty update changes nothing, and applying an update a second time
      changes nothing more. */
  lemma ApplyPatchLaws(m: Member, p: MemberPatch)
    ensures ApplyPatch(m, EmptyPatch) == m
    ensures ApplyPatch(ApplyPatch(m, p), p) == ApplyPatch(m, p)
  {
  }

  /** A member with the id and creation time the store attaches. */
  function Stamp(d: MemberDraft, id: string, createdAt: int): (m: Member)
    ensures Unstamp(m) == d && m.id == id && m.createdAt == createdAt
  {
    Member(id, d.name, d.phone, d.isUsed, d.voucherType, d.isVip, d.birthdayMonth, d.note, createdAt)
  }

  /** The draft part of a member record. */
  function Unstamp(m: Member): MemberDraft {
    MemberDraft(m.name, m.phone, m.isUsed, m.voucherType, m.isVip, m.birthdayMonth, m.note)
  }

  /** A signed-in account; the token is opaque. */
  datatype User = User(username: string, token: string)

  /** What is persisted and exchanged: the member list and the store name. */
  datatype Snapshot = Snapshot(members: seq<Member>, storeName: string)

  const EmptySnapshot := Snapshot([], "")
}
