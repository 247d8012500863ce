/** Validation of a credential import: the whole file is accepted or none of it,
    and what is accepted can be issued in any order. */
module ImportValidation {
  import opened Options
  import opened JsText
  import opened StableSort
  import CsvText
  import ColumnNames

  const MAX_ROWS := 1000
  const MAX_BYTES := 1024 * 1024
  const MAX_INVITE_TTL_DAYS := 365
  const ROOT_DIVISION := "unit-root"

  /** Patterns, lower-casing and Wallet ID parsing, which are not modelled. */
  datatype Oracles = Oracles(
    emailOk: string -> bool,
    phoneOk: string -> bool,
    parseWallet: string -> Option<string>,
    lower: string -> string)

  datatype Named = Named(id: string, name: string)
  datatype Claim = Claim(key: string, options: seq<string>)

  /** What the organization already holds and offers. */
  datatype Workspace = Workspace(
    emails: set<string>,        // held, non-empty
    wallets: set<string>,       // held, non-empty
    credentialCount: nat,
    units: seq<Named>,
    roles: seq<Named>,
    personTypes: seq<string>,
    claims: seq<Claim>,
    limit: Option<nat>)

  // ---------------------------------------------------------------------
  // Reading the cells of a row

  const BASE_KEYS: seq<string> :=
    ["email", "display_name", "wallet_id", "phone", "person_type", "division", "roles", "invite_ttl_days"]

  predicate KnownKey(ws: Workspace, key: string) {
    key in BASE_KEYS || exists i :: 0 <= i < |ws.claims| && key == "claim_" + ws.claims[i].key
  }

  function Header(o: Oracles, cells: seq<string>): (h: seq<string>)
    ensures |h| == |cells|
  {
    seq(|cells|, i requires 0 <= i < |cells| => o.lower(Trim(cells[i])))
  }

  predicate HeaderOk(ws: Workspace, header: seq<string>) {
    && (forall i :: 0 <= i < |header| ==> header[i] != "" && KnownKey(ws, header[i]))
    && ("email" in header || "wallet_id" in header || "phone" in header)
  }

  /** The cell under a heading, trimmed; of two columns with one heading the last
      counts, and a missing column or cell is empty. */
  function Field(header: seq<string>, cells: seq<string>, key: string): string
    decreases |header|
  {
    if header == [] then ""
    else
      var n := |header| - 1;
      if header[n] == key then (if n < |cells| then Trim(cells[n]) else "") else Field(header[..n], cells, key)
  }

  /** The first column with this heading, or -1. */
  function ColumnOf(header: seq<string>, key: string): (r: int)
    ensures -1 <= r < |header|
    ensures r == -1 <==> key !in header
    ensures r >= 0 ==> header[r] == key && key !in header[..r]
  {
    if header == [] then -1
    else if header[0] == key then 0
    else
      var i := ColumnOf(header[1..], key);
      assert header == [header[0]] + header[1..];
      assert i >= 0 ==> header[..i + 1] == [header[0]] + header[1..][..i];
      if i == -1 then -1 else i + 1
  }

  function Tokens(text: string): seq<string>
    decreases |text|
  {
    var i := IndexOf(text, ';');
    if i == -1 then (if Trim(text) == "" then [] else [Trim(text)])
    else (if Trim(text[..i]) == "" then [] else [Trim(text[..i])]) + Tokens(text[i + 1..])
  }

  /** The first entry with this id, or with this name whatever its case. */
  function Find(o: Oracles, entries: seq<Named>, token: string): (r: Option<string>)
    ensures r.Some? <==> exists i :: 0 <= i < |entries| && Denotes(o, entries[i], token)
    ensures r.Some? ==> exists i :: FirstDenoted(o, entries, token, i) && entries[i].id == r.value
  {
    if entries == [] then None
    else if Denotes(o, entries[0], token) then
      assert FirstDenoted(o, entries, token, 0);
      Some(entries[0].id)
    else
      assert forall i :: 1 <= i < |entries| ==> entries[i] == entries[1..][i - 1];
      assert forall i :: FirstDenoted(o, entries[1..], token, i) ==> FirstDenoted(o, entries, token, i + 1);
      Find(o, entries[1..], token)
  }

  /** Entry i is the first that the token denotes. */
  ghost predicate FirstDenoted(o: Oracles, entries: seq<Named>, token: string, i: int) {
    0 <= i < |entries| && Denotes(o, entries[i], token) && forall j :: 0 <= j < i ==> !Denotes(o, entries[j], token)
  }

  predicate Denotes(o: Oracles, entry: Named, token: string) {
    entry.id == token || o.lower(entry.name) == o.lower(token)
  }

  function Digits(text: string): nat {
    if text == "" then 0
    else Digits(text[..|text| - 1]) * 10 +
         if '0' <= text[|text| - 1] <= '9' then text[|text| - 1] as int - '0' as int else 0
  }

  /** A whole number from 1 to 365 written in its shortest form. */
  predicate TtlOk(text: string) {
    && text != "" && text[0] != '0' && (forall i :: 0 <= i < |text| ==> '0' <= text[i] <= '9')
    && 1 <= Digits(text) <= MAX_INVITE_TTL_DAYS
  }

  datatype Fields = Fields(
    email: string,
    displayName: string,
    walletText: string,
    wallet: Option<string>,
    phone: string,
    personType: string,
    division: string,
    roles: seq<string>,
    ttl: string,
    claims: seq<string>)

  function ReadFields(ws: Workspace, o: Oracles, header: seq<string>, cells: seq<string>): (f: Fields)
    ensures |f.claims| == |ws.claims|
  {
    var walletText := Field(header, cells, "wallet_id");
    var personType := Field(header, cells, "person_type");
    Fields(
      o.lower(Field(header, cells, "email")),
      Field(header, cells, "display_name"),
      walletText,
      if walletText == "" then None else o.parseWallet(walletText),
      Field(header, cells, "phone"),
      o.lower(if personType == "" then "employee" else personType),
      Field(header, cells, "division"),
      Tokens(Field(header, cells, "roles")),
      Field(header, cells, "invite_ttl_days"),
      seq(|ws.claims|, i requires 0 <= i < |ws.claims| => Field(header, cells, "claim_" + ws.claims[i].key)))
  }

  // ---------------------------------------------------------------------
  // What makes a row unacceptable

  /** What is wrong, with what its message names. */
  datatype Kind =
    | ContactMissing | EmailFormat | WalletFormat | PhoneFormat
    | EmailHeld | EmailRepeated(line: nat) | WalletHeld | WalletRepeated(line: nat)
    | PersonTypeUnknown | DivisionUnknown | RoleUnknown(token: string) | TtlFormat | ClaimValue(key: string)
    | BlankHeading | UnknownHeading(name: string) | ContactColumnMissing
    | FileTooLarge | FileEmpty | NoRows | TooManyRows(count: nat) | PlanLimit(remaining: nat)

  predicate NoContact(f: Fields) { f.email == "" && f.walletText == "" && f.phone == "" }

  /** No Wallet ID was parsed; an empty one counts as none. */
  predicate NoWallet(f: Fields) { f.wallet.None? || f.wallet.value == "" }

  predicate ClaimBad(c: Claim, value: string) { value != "" && c.options != [] && value !in c.options }

  /** A fault of the row by itself. */
  ghost predicate FieldFault(ws: Workspace, o: Oracles, f: Fields, kind: Kind)
    requires |f.claims| == |ws.claims|
  {
    match kind
    case ContactMissing => NoContact(f)
    case EmailFormat => f.email != "" && !o.emailOk(f.email)
    case WalletFormat => f.walletText != "" && NoWallet(f)
    case PhoneFormat => f.phone != "" && !o.phoneOk(f.phone)
    case PersonTypeUnknown => f.personType !in ws.personTypes
    case DivisionUnknown => f.division != "" && Find(o, ws.units, f.division).None?
    case RoleUnknown(token) => token in f.roles && Find(o, ws.roles, token).None?
    case TtlFormat => f.ttl != "" && !TtlOk(f.ttl)
    case ClaimValue(key) =>
      exists i :: 0 <= i < |ws.claims| && ws.claims[i].key == key && ClaimBad(ws.claims[i], f.claims[i])
    case _ => false
  }

  /** The first row that uses this e-mail is reported at this line. */
  ghost predicate FirstEmail(rows: seq<Fields>, email: string, line: nat) {
    2 <= line < |rows| + 2 && rows[line - 2].email == email && forall j :: 0 <= j < line - 2 ==> rows[j].email != email
  }

  ghost predicate FirstWallet(rows: seq<Fields>, wallet: string, line: nat) {
    && 2 <= line < |rows| + 2 && rows[line - 2].wallet == Some(wallet)
    && forall j :: 0 <= j < line - 2 ==> rows[j].wallet != Some(wallet)
  }

  /** An e-mail or Wallet ID that the organization or an earlier row has. */
  ghost predicate TakenFault(ws: Workspace, rows: seq<Fields>, k: nat, kind: Kind)
    requires k < |rows|
  {
    var f := rows[k];
    match kind
    case EmailHeld => f.email != "" && f.email in ws.emails
    case EmailRepeated(line) => f.email != "" && f.email !in ws.emails && FirstEmail(rows[..k], f.email, line)
    case WalletHeld => !NoWallet(f) && f.wallet.value in ws.wallets
    case WalletRepeated(line) => !NoWallet(f) && f.wallet.value !in ws.wallets
        && FirstWallet(rows[..k], f.wallet.value, line)
    case _ => false
  }

  ghost predicate Fault(ws: Workspace, o: Oracles, rows: seq<Fields>, k: nat, kind: Kind)
    requires k < |rows| && |rows[k].claims| == |ws.claims|
  {
    FieldFault(ws, o, rows[k], kind) || TakenFault(ws, rows, k, kind)
  }

  ghost predicate RowBad(ws: Workspace, o: Oracles, rows: seq<Fields>, k: nat)
    requires k < |rows| && |rows[k].claims| == |ws.claims|
  {
    exists kind :: Fault(ws, o, rows, k, kind)
  }

  /** How many credentials a limited plan has left. */
  function Remaining(ws: Workspace): nat {
    if ws.limit.Some? && ws.limit.value > ws.credentialCount then ws.limit.value - ws.credentialCount else 0
  }

  predicate OverLimit(ws: Workspace, count: nat) { ws.limit.Some? && count > Remaining(ws) }

  predicate FromWorkspace(ws: Workspace, rows: seq<Fields>) {
    forall k :: 0 <= k < |rows| ==> |rows[k].claims| == |ws.claims|
  }

  // ---------------------------------------------------------------------
  // The validator

  /** A problem with the line and column it is shown at. Lines count the rows of the
      file that are not blank, the header being 1. */
  datatype Problem = Problem(row: nat, column: string, kind: Kind)

  /** The column that a problem is shown at; none for a missing contact. */
  function ColumnFor(header: seq<string>, kind: Kind): string {
    match kind
    case EmailFormat | EmailHeld | EmailRepeated(_) => ColumnNames.Name(ColumnOf(header, "email"))
    case WalletFormat | WalletHeld | WalletRepeated(_) => ColumnNames.Name(ColumnOf(header, "wallet_id"))
    case PhoneFormat => ColumnNames.Name(ColumnOf(header, "phone"))
    case PersonTypeUnknown => ColumnNames.Name(ColumnOf(header, "person_type"))
    case DivisionUnknown => ColumnNames.Name(ColumnOf(header, "division"))
    case RoleUnknown(_) => ColumnNames.Name(ColumnOf(header, "roles"))
    case TtlFormat => ColumnNames.Name(ColumnOf(header, "invite_ttl_days"))
    case ClaimValue(key) => ColumnNames.Name(ColumnOf(header, "claim_" + key))
    case _ => ""
  }

  function At(header: seq<string>, line: nat, kind: Kind): Problem { Problem(line, ColumnFor(header, kind), kind) }

  /** What is issued for an accepted row. */
  datatype Input = Input(
    line: nat,
    email: string,
    displayName: string,
    wallet: string,
    phone: string,
    personType: string,
    divisionId: string,
    roleIds: seq<string>,
    inviteTtlDays: Option<nat>,
    claims: seq<(string, string)>,
    contact: string)  // how the row is named to the administrator

  function Division(ws: Workspace, o: Oracles, f: Fields): string {
    if f.division == "" then ROOT_DIVISION
    else
      var unit := Find(o, ws.units, f.division);
      if unit.Some? then unit.value else ROOT_DIVISION
  }

  /** The ids of the roles that are found, in order. */
  function RoleIds(ws: Workspace, o: Oracles, tokens: seq<string>): seq<string> {
    if tokens == [] then []
    else
      var role := Find(o, ws.roles, tokens[0]);
      (if role.Some? then [role.value] else []) + RoleIds(ws, o, tokens[1..])
  }

  /** The claim values that are given, in the order of the definitions. */
  function ClaimValues(claims: seq<Claim>, values: seq<string>): (r: seq<(string, string)>)
    requires |claims| == |values|
    ensures forall x :: x in r <==> exists i :: 0 <= i < |claims| && values[i] != "" && x == (claims[i].key, values[i])
  {
    if claims == [] then []
    else
      assert forall i :: 1 <= i < |claims| ==> claims[i] == claims[1..][i - 1] && values[i] == values[1..][i - 1];
      (if values[0] != "" then [(claims[0].key, values[0])] else []) + ClaimValues(claims[1..], values[1..])
  }

  function InputOf(ws: Workspace, o: Oracles, f: Fields, line: nat): Input
    requires |f.claims| == |ws.claims|
  {
    var wallet := if NoWallet(f) then "" else f.wallet.value;
    Input(line, f.email, f.displayName, wallet, f.phone, f.personType, Division(ws, o, f), RoleIds(ws, o, f.roles),
          if f.ttl != "" && TtlOk(f.ttl) then Some(Digits(f.ttl)) else None,
          ClaimValues(ws.claims, f.claims),
          if f.email != "" then f.email else if wallet != "" then wallet else f.phone)
  }

  function Inputs(ws: Workspace, o: Oracles, rows: seq<Fields>): (r: seq<Input>)
    requires FromWorkspace(ws, rows)
    ensures |r| == |rows|
  {
    seq(|rows|, k requires 0 <= k < |rows| => InputOf(ws, o, rows[k], k + 2))
  }

  /** The problems are these kinds, each at its column on this line. */
  ghost predicate Lists(header: seq<string>, line: nat, problems: seq<Problem>, kinds: set<Kind>) {
    && (forall p :: p in problems ==> p == At(header, line, p.kind) && p.kind in kinds)
    && (forall kind :: kind in kinds ==> At(header, line, kind) in problems)
  }

  lemma ListsOneMore(header: seq<string>, line: nat, problems: seq<Problem>, kinds: set<Kind>, kind: Kind)
    requires Lists(header, line, problems, kinds)
    ensures Lists(header, line, problems + [At(header, line, kind)], kinds + {kind})
  {
    hide At;
    var all := problems + [At(header, line, kind)];
    assert all[|problems|] == At(header, line, kind);
    assert forall p :: p in problems ==> p in all;
    assert At(header, line, kind).kind == kind
           && At(header, line, kind) == At(header, line, At(header, line, kind).kind) by {
      KindAt(header, line, kind);
    }
  }

  lemma KindAt(header: seq<string>, line: nat, kind: Kind)
    ensures At(header, line, kind).kind == kind && At(header, line, kind).row == line
  {
  }

  /** Adding a problem if its condition holds. */
  method Check(header: seq<string>, line: nat, problems: seq<Problem>, bad: bool, kind: Kind, ghost kinds: set<Kind>)
    returns (more: seq<Problem>, ghost now: set<Kind>)
    requires Lists(header, line, problems, kinds)
    ensures now == if bad then kinds + {kind} else kinds
    ensures Lists(header, line, more, now)
  {
    more, now := problems, kinds;
    if bad {
      ListsOneMore(header, line, problems, kinds, kind);
      more, now := problems + [At(header, line, kind)], kinds + {kind};
    }
  }

  /** The kinds of problem that the first i roles give. */
  ghost predicate RoleKinds(ws: Workspace, o: Oracles, roles: seq<string>, kinds: set<Kind>) {
    forall kind :: kind in kinds <==> kind.RoleUnknown? && kind.token in roles && Find(o, ws.roles, kind.token).None?
  }

  method CheckRoles(ws: Workspace, o: Oracles, header: seq<string>, f: Fields, line: nat)
    returns (problems: seq<Problem>, ghost kinds: set<Kind>)
    ensures Lists(header, line, problems, kinds) && RoleKinds(ws, o, f.roles, kinds)
  {
    hide Find, Lists;
    problems, kinds := [], {};
    NoneListed(header, line);
    for i := 0 to |f.roles|
      invariant Lists(header, line, problems, kinds) && RoleKinds(ws, o, f.roles[..i], kinds)
    {
      assert f.roles[..i + 1] == f.roles[..i] + [f.roles[i]];
      problems, kinds := Check(header, line, problems, Find(o, ws.roles, f.roles[i]).None?, RoleUnknown(f.roles[i]),
                               kinds);
    }
    assert f.roles[..|f.roles|] == f.roles;
  }

  ghost predicate ClaimKinds(ws: Workspace, f: Fields, n: nat, kinds: set<Kind>)
    requires n <= |ws.claims| == |f.claims|
  {
    forall kind :: kind in kinds <==>
      kind.ClaimValue? && exists i :: 0 <= i < n && ws.claims[i].key == kind.key && ClaimBad(ws.claims[i], f.claims[i])
  }

  method CheckClaims(ws: Workspace, header: seq<string>, f: Fields, line: nat)
    returns (problems: seq<Problem>, ghost kinds: set<Kind>)
    requires |f.claims| == |ws.claims|
    ensures Lists(header, line, problems, kinds) && ClaimKinds(ws, f, |ws.claims|, kinds)
  {
    hide ClaimBad, Lists;
    problems, kinds := [], {};
    NoneListed(header, line);
    for i := 0 to |f.claims|
      invariant Lists(header, line, problems, kinds) && ClaimKinds(ws, f, i, kinds)
    {
      ghost var before := kinds;
      problems, kinds := Check(header, line, problems, ClaimBad(ws.claims[i], f.claims[i]),
                               ClaimValue(ws.claims[i].key), kinds);
    }
  }

  lemma NoneListed(header: seq<string>, line: nat)
    ensures Lists(header, line, [], {})
  {
  }

  lemma ListsMeans(header: seq<string>, line: nat, problems: seq<Problem>, kinds: set<Kind>)
    requires Lists(header, line, problems, kinds)
    ensures forall p :: p in problems <==> p == At(header, line, p.kind) && p.kind in kinds
  {
    hide At;
  }

  lemma ListsJoin(header: seq<string>, line: nat, a: seq<Problem>, b: seq<Problem>, x: set<Kind>, y: set<Kind>)
    requires Lists(header, line, a, x) && Lists(header, line, b, y)
    ensures Lists(header, line, a + b, x + y)
  {
    hide At;
  }

  predicate OfContact(kind: Kind) {
    kind.ContactMissing? || kind.EmailFormat? || kind.WalletFormat? || kind.PhoneFormat?
  }

  method CheckContact(ws: Workspace, o: Oracles, header: seq<string>, f: Fields, line: nat)
    returns (problems: seq<Problem>, ghost kinds: set<Kind>)
    requires |f.claims| == |ws.claims|
    ensures Lists(header, line, problems, kinds)
    ensures forall kind :: kind in kinds <==> OfContact(kind) && FieldFault(ws, o, f, kind)
  {
    hide Lists, NoContact, NoWallet;
    NoneListed(header, line);
    problems, kinds := Check(header, line, [], NoContact(f), ContactMissing, {});
    problems, kinds := Check(header, line, problems, f.email != "" && !o.emailOk(f.email), EmailFormat, kinds);
    problems, kinds := Check(header, line, problems, f.walletText != "" && NoWallet(f), WalletFormat, kinds);
    problems, kinds := Check(header, line, problems, f.phone != "" && !o.phoneOk(f.phone), PhoneFormat, kinds);
  }

  predicate OfPlace(kind: Kind) { kind.PersonTypeUnknown? || kind.DivisionUnknown? || kind.TtlFormat? }

  method CheckPlace(ws: Workspace, o: Oracles, header: seq<string>, f: Fields, line: nat)
    returns (problems: seq<Problem>, ghost kinds: set<Kind>)
    requires |f.claims| == |ws.claims|
    ensures Lists(header, line, problems, kinds)
    ensures forall kind :: kind in kinds <==> OfPlace(kind) && FieldFault(ws, o, f, kind)
  {
    hide Find, Lists, TtlOk;
    NoneListed(header, line);
    problems, kinds := Check(header, line, [], f.personType !in ws.personTypes, PersonTypeUnknown, {});
    var nowhere := f.division != "" && Find(o, ws.units, f.division).None?;
    problems, kinds := Check(header, line, problems, nowhere, DivisionUnknown, kinds);
    problems, kinds := Check(header, line, problems, f.ttl != "" && !TtlOk(f.ttl), TtlFormat, kinds);
  }

  lemma AllKinds(ws: Workspace, o: Oracles, f: Fields, contact: set<Kind>, place: set<Kind>, roles: set<Kind>,
                 claims: set<Kind>)
    requires |f.claims| == |ws.claims|
    requires forall kind :: kind in contact <==> OfContact(kind) && FieldFault(ws, o, f, kind)
    requires forall kind :: kind in place <==> OfPlace(kind) && FieldFault(ws, o, f, kind)
    requires RoleKinds(ws, o, f.roles, roles) && ClaimKinds(ws, f, |ws.claims|, claims)
    ensures forall kind :: kind in contact + place + roles + claims <==> FieldFault(ws, o, f, kind)
  {
    hide Find, TtlOk, NoContact, NoWallet, ClaimBad;
  }

  /** The problems of one row by itself: one of every kind of fault it has. */
  method CheckFields(ws: Workspace, o: Oracles, header: seq<string>, f: Fields, line: nat)
    returns (problems: seq<Problem>, ghost kinds: set<Kind>)
    requires |f.claims| == |ws.claims|
    ensures forall p :: p in problems <==> p == At(header, line, p.kind) && FieldFault(ws, o, f, p.kind)
    ensures Lists(header, line, problems, kinds)
    ensures forall kind :: kind in kinds <==> FieldFault(ws, o, f, kind)
  {
    hide Lists, FieldFault, OfContact, OfPlace, RoleKinds, ClaimKinds;
    var contact, place, roles, claims;
    ghost var contactKinds, placeKinds, roleKinds, claimKinds;
    contact, contactKinds := CheckContact(ws, o, header, f, line);
    place, placeKinds := CheckPlace(ws, o, header, f, line);
    roles, roleKinds := CheckRoles(ws, o, header, f, line);
    claims, claimKinds := CheckClaims(ws, header, f, line);
    ListsJoin(header, line, contact, place, contactKinds, placeKinds);
    ListsJoin(header, line, contact + place, roles, contactKinds + placeKinds, roleKinds);
    ListsJoin(header, line, contact + place + roles, claims, contactKinds + placeKinds + roleKinds, claimKinds);
    AllKinds(ws, o, f, contactKinds, placeKinds, roleKinds, claimKinds);
    problems, kinds := contact + place + roles + claims, contactKinds + placeKinds + roleKinds + claimKinds;
    ListsMeans(header, line, problems, kinds);
  }

  /** The entries are the new e-mails of the first k rows, each at its first line. */
  ghost predicate SeenEmails(ws: Workspace, rows: seq<Fields>, k: nat, seen: map<string, nat>)
    requires k <= |rows|
  {
    && (forall e :: e in seen ==> e != "" && e !in ws.emails && FirstEmail(rows[..k], e, seen[e]))
    && forall j :: 0 <= j < k && rows[j].email != "" && rows[j].email !in ws.emails ==> rows[j].email in seen
  }

  ghost predicate SeenWallets(ws: Workspace, rows: seq<Fields>, k: nat, seen: map<string, nat>)
    requires k <= |rows|
  {
    && (forall w :: w in seen ==> w != "" && w !in ws.wallets && FirstWallet(rows[..k], w, seen[w]))
    && forall j :: 0 <= j < k && !NoWallet(rows[j]) && rows[j].wallet.value !in ws.wallets ==>
       rows[j].wallet.value in seen
  }

  lemma FirstEmailUnique(rows: seq<Fields>, email: string, a: nat, b: nat)
    requires FirstEmail(rows, email, a) && FirstEmail(rows, email, b)
    ensures a == b
  {
    assert rows[a - 2].email == email && rows[b - 2].email == email;
  }

  lemma FirstWalletUnique(rows: seq<Fields>, wallet: string, a: nat, b: nat)
    requires FirstWallet(rows, wallet, a) && FirstWallet(rows, wallet, b)
    ensures a == b
  {
    assert rows[a - 2].wallet == Some(wallet) && rows[b - 2].wallet == Some(wallet);
  }

  /** The e-mail of row k is a repetition exactly if it has been seen. */
  lemma EmailSeen(ws: Workspace, rows: seq<Fields>, k: nat, seen: map<string, nat>)
    requires k < |rows| && SeenEmails(ws, rows, k, seen)
    ensures var e := rows[k].email;
            forall line: nat :: TakenFault(ws, rows, k, EmailRepeated(line)) <==>
                e !in ws.emails && e in seen && seen[e] == line
  {
    var e := rows[k].email;
    forall line: nat
      ensures TakenFault(ws, rows, k, EmailRepeated(line)) <==> e !in ws.emails && e in seen && seen[e] == line
    {
      if TakenFault(ws, rows, k, EmailRepeated(line)) {
        assert rows[..k][line - 2].email == e && rows[line - 2].email == e;
        FirstEmailUnique(rows[..k], e, line, seen[e]);
      }
    }
  }

  lemma WalletSeen(ws: Workspace, rows: seq<Fields>, k: nat, seen: map<string, nat>)
    requires k < |rows| && SeenWallets(ws, rows, k, seen)
    ensures forall line: nat :: TakenFault(ws, rows, k, WalletRepeated(line)) <==>
                                !NoWallet(rows[k]) && rows[k].wallet.value !in ws.wallets &&
                                rows[k].wallet.value in seen && seen[rows[k].wallet.value] == line
  {
    forall line: nat
      ensures TakenFault(ws, rows, k, WalletRepeated(line)) <==>
              !NoWallet(rows[k]) && rows[k].wallet.value !in ws.wallets &&
              rows[k].wallet.value in seen && seen[rows[k].wallet.value] == line
    {
      if TakenFault(ws, rows, k, WalletRepeated(line)) {
        var w := rows[k].wallet.value;
        assert rows[..k][line - 2].wallet == Some(w) && rows[line - 2].wallet == Some(w);
        FirstWalletUnique(rows[..k], w, line, seen[w]);
      }
    }
  }

  lemma SeenEmailsStep(ws: Workspace, rows: seq<Fields>, k: nat, seen: map<string, nat>)
    requires k < |rows| && SeenEmails(ws, rows, k, seen)
    ensures var e := rows[k].email;
            SeenEmails(ws, rows, k + 1, if e != "" && e !in ws.emails && e !in seen then seen[e := k + 2] else seen)
  {
    var e := rows[k].email;
    var next := if e != "" && e !in ws.emails && e !in seen then seen[e := k + 2] else seen;
    assert rows[..k + 1] == rows[..k] + [rows[k]];
    forall x | x in next
      ensures x != "" && x !in ws.emails && FirstEmail(rows[..k + 1], x, next[x])
    {
      if x in seen {
        assert FirstEmail(rows[..k], x, seen[x]);
      } else {
        assert forall j :: 0 <= j < k ==> rows[..k + 1][j] == rows[j];
      }
    }
  }

  lemma SeenWalletsStep(ws: Workspace, rows: seq<Fields>, k: nat, seen: map<string, nat>)
    requires k < |rows| && SeenWallets(ws, rows, k, seen)
    ensures SeenWallets(ws, rows, k + 1,
                        if !NoWallet(rows[k]) && rows[k].wallet.value !in ws.wallets && rows[k].wallet.value !in seen
                        then seen[rows[k].wallet.value := k + 2] else seen)
  {
    var next := if !NoWallet(rows[k]) && rows[k].wallet.value !in ws.wallets && rows[k].wallet.value !in seen
                then seen[rows[k].wallet.value := k + 2] else seen;
    assert rows[..k + 1] == rows[..k] + [rows[k]];
    forall x | x in next
      ensures x != "" && x !in ws.wallets && FirstWallet(rows[..k + 1], x, next[x])
    {
      if x in seen {
        assert FirstWallet(rows[..k], x, seen[x]);
      } else {
        assert forall j :: 0 <= j < k ==> rows[..k + 1][j] == rows[j];
      }
    }
  }

  /** Exactly the faults of the first k rows are reported, at their lines. */
  ghost predicate Reported(ws: Workspace, o: Oracles, header: seq<string>, rows: seq<Fields>, k: nat,
                           errors: seq<Problem>)
    requires k <= |rows| && FromWorkspace(ws, rows)
  {
    forall p :: p in errors <==>
      2 <= p.row < k + 2 && p == At(header, p.row, p.kind) && Fault(ws, o, rows, p.row - 2, p.kind)
  }

  lemma ReportedStep(ws: Workspace, o: Oracles, header: seq<string>, rows: seq<Fields>, k: nat, errors: seq<Problem>,
                     problems: seq<Problem>, kinds: set<Kind>)
    requires k < |rows| && FromWorkspace(ws, rows) && Reported(ws, o, header, rows, k, errors)
    requires Lists(header, k + 2, problems, kinds) && forall kind :: kind in kinds <==> Fault(ws, o, rows, k, kind)
    ensures Reported(ws, o, header, rows, k + 1, errors + problems)
  {
    hide Fault, At;
    forall p
      ensures p in problems <==>
              p.row == k + 2 && p == At(header, p.row, p.kind) && Fault(ws, o, rows, p.row - 2, p.kind)
    {
      KindAt(header, k + 2, p.kind);
    }
  }

  lemma InputsSnoc(ws: Workspace, o: Oracles, rows: seq<Fields>, k: nat)
    requires k < |rows| && FromWorkspace(ws, rows)
    ensures FromWorkspace(ws, rows[..k]) && FromWorkspace(ws, rows[..k + 1])
    ensures Inputs(ws, o, rows[..k + 1]) == Inputs(ws, o, rows[..k]) + [InputOf(ws, o, rows[k], k + 2)]
  {
    hide InputOf;
  }

  // ---------------------------------------------------------------------
  // The order of the report: by line, then by column

  /** `<=` on column names. */
  predicate NameAtMost(a: string, b: string) {
    a == "" || (b != "" && (a[0] < b[0] || (a[0] == b[0] && NameAtMost(a[1..], b[1..]))))
  }

  lemma {:induction false} NameTotal(a: string, b: string)
    ensures NameAtMost(a, b) || NameAtMost(b, a)
  {
    if a != "" && b != "" && a[0] == b[0] {
      NameTotal(a[1..], b[1..]);
    }
  }

  lemma {:induction false} NameTransitive(a: string, b: string, c: string)
    requires NameAtMost(a, b) && NameAtMost(b, c)
    ensures NameAtMost(a, c)
  {
    if a != "" && a[0] == b[0] == c[0] {
      NameTransitive(a[1..], b[1..], c[1..]);
    }
  }

  predicate ReportOrder(a: Problem, b: Problem) {
    a.row < b.row || (a.row == b.row && NameAtMost(a.column, b.column))
  }

  lemma ReportOrderTotal()
    ensures TotalPreorder(ReportOrder)
  {
    forall a: Problem, b: Problem
      ensures ReportOrder(a, b) || ReportOrder(b, a)
    {
      NameTotal(a.column, b.column);
    }
    forall a, b, c | ReportOrder(a, b) && ReportOrder(b, c)
      ensures ReportOrder(a, c)
    {
      if a.row == b.row == c.row {
        NameTransitive(a.column, b.column, c.column);
      }
    }
  }

  /** The report of a file whose header is good: exactly the faults of its rows and
      the plan limit, ordered by line and column. */
  ghost predicate RowsReport(ws: Workspace, o: Oracles, header: seq<string>, rows: seq<Fields>, errors: seq<Problem>)
    requires FromWorkspace(ws, rows)
  {
    && (forall p :: p in errors <==>
          || (OverLimit(ws, |rows|) && p == Problem(0, "", PlanLimit(Remaining(ws))))
          || (2 <= p.row < |rows| + 2 && p == At(header, p.row, p.kind) && Fault(ws, o, rows, p.row - 2, p.kind)))
    && Sorted(errors, ReportOrder)
  }

  lemma SortedReport(ws: Workspace, o: Oracles, header: seq<string>, rows: seq<Fields>, errors: seq<Problem>)
    requires FromWorkspace(ws, rows) && Reported(ws, o, header, rows, |rows|, errors)
    ensures var all := if OverLimit(ws, |rows|) then errors + [Problem(0, "", PlanLimit(Remaining(ws)))] else errors;
            RowsReport(ws, o, header, rows, Sort(all, ReportOrder))
  {
    hide Fault, At, Sort, OverLimit, ReportOrder;
    var all := if OverLimit(ws, |rows|) then errors + [Problem(0, "", PlanLimit(Remaining(ws)))] else errors;
    assert forall p :: p in all <==>
           p in errors || (OverLimit(ws, |rows|) && p == Problem(0, "", PlanLimit(Remaining(ws))));
    ReportOrderTotal();
    SortIsStable(all, ReportOrder);
    SortMembers(all, ReportOrder);
  }

  /** The report is empty exactly for a file that is acceptable. */
  lemma ReportEmpty(ws: Workspace, o: Oracles, header: seq<string>, rows: seq<Fields>, errors: seq<Problem>)
    requires FromWorkspace(ws, rows) && RowsReport(ws, o, header, rows, errors)
    ensures errors == [] <==> NoneBad(ws, o, rows) && !OverLimit(ws, |rows|)
  {
    hide Fault, OverLimit, Sorted;
    if errors != [] {
      var p := errors[0];
      assert p in errors;
      assert p.row >= 2 ==> RowBad(ws, o, rows, p.row - 2);
    }
    if k :| 0 <= k < |rows| && RowBad(ws, o, rows, k) {
      var kind :| Fault(ws, o, rows, k, kind);
      assert At(header, k + 2, kind) in errors;
    }
    if OverLimit(ws, |rows|) {
      assert Problem(0, "", PlanLimit(Remaining(ws))) in errors;
    }
  }

  ghost predicate NoneBad(ws: Workspace, o: Oracles, rows: seq<Fields>)
    requires FromWorkspace(ws, rows)
  {
    forall k :: 0 <= k < |rows| ==> !RowBad(ws, o, rows, k)
  }

  /** Every fault of every row is reported, at its line and column, and nothing
      else; rows come back only when the file is accepted. */
  method ValidateRows(ws: Workspace, o: Oracles, header: seq<string>, rows: seq<Fields>)
    returns (inputs: seq<Input>, errors: seq<Problem>)
    requires FromWorkspace(ws, rows)
    ensures RowsReport(ws, o, header, rows, errors)
    ensures inputs == if errors == [] then Inputs(ws, o, rows) else []
  {
    hide FieldFault, TakenFault, SeenEmails, SeenWallets, InputOf, Reported, Lists, RowsReport, Sort;
    errors := [];
    inputs := [];
    var seenEmails: map<string, nat> := map[];
    var seenWallets: map<string, nat> := map[];
    NothingSeen(ws, o, header, rows);
    for k := 0 to |rows|
      invariant FromWorkspace(ws, rows[..k]) && inputs == Inputs(ws, o, rows[..k])
      invariant SeenEmails(ws, rows, k, seenEmails) && SeenWallets(ws, rows, k, seenWallets)
      invariant Reported(ws, o, header, rows, k, errors)
    {
      var f, line := rows[k], k + 2;
      SeenEmailsStep(ws, rows, k, seenEmails);
      SeenWalletsStep(ws, rows, k, seenWallets);
      InputsSnoc(ws, o, rows, k);
      var problems;
      ghost var kinds;
      problems, kinds := CheckFields(ws, o, header, f, line);
      problems, kinds := CheckTaken(ws, header, rows, k, seenEmails, seenWallets, problems, kinds);
      if f.email != "" && f.email !in ws.emails && f.email !in seenEmails {
        seenEmails := seenEmails[f.email := line];
      }
      if !NoWallet(f) && f.wallet.value !in ws.wallets && f.wallet.value !in seenWallets {
        seenWallets := seenWallets[f.wallet.value := line];
      }
      ReportedStep(ws, o, header, rows, k, errors, problems, kinds);
      errors := errors + problems;
      inputs := inputs + [InputOf(ws, o, f, line)];
    }
    assert rows[..|rows|] == rows;
    SortedReport(ws, o, header, rows, errors);
    if OverLimit(ws, |rows|) {
      errors := errors + [Problem(0, "", PlanLimit(Remaining(ws)))];
    }
    errors := Sort(errors, ReportOrder);
    if errors != [] {
      inputs := [];
    }
  }

  /** The repetitions of row k, from the tables of what has been seen. */
  method CheckTaken(ws: Workspace, header: seq<string>, rows: seq<Fields>, k: nat,
                    seenEmails: map<string, nat>, seenWallets: map<string, nat>,
                    before: seq<Problem>, ghost kindsBefore: set<Kind>)
    returns (problems: seq<Problem>, ghost kinds: set<Kind>)
    requires k < |rows| && SeenEmails(ws, rows, k, seenEmails) && SeenWallets(ws, rows, k, seenWallets)
    requires Lists(header, k + 2, before, kindsBefore)
    ensures Lists(header, k + 2, problems, kinds)
    ensures forall kind :: kind in kinds <==> kind in kindsBefore || TakenFault(ws, rows, k, kind)
  {
    hide Lists, FirstEmail, FirstWallet;
    var f, line := rows[k], k + 2;
    EmailSeen(ws, rows, k, seenEmails);
    WalletSeen(ws, rows, k, seenWallets);
    problems, kinds := before, kindsBefore;
    if f.email != "" {
      if f.email in ws.emails {
        problems, kinds := Check(header, line, problems, true, EmailHeld, kinds);
      } else if f.email in seenEmails {
        problems, kinds := Check(header, line, problems, true, EmailRepeated(seenEmails[f.email]), kinds);
      }
    }
    if !NoWallet(f) {
      if f.wallet.value in ws.wallets {
        problems, kinds := Check(header, line, problems, true, WalletHeld, kinds);
      } else if f.wallet.value in seenWallets {
        problems, kinds := Check(header, line, problems, true, WalletRepeated(seenWallets[f.wallet.value]), kinds);
      }
    }
  }

  lemma NothingSeen(ws: Workspace, o: Oracles, header: seq<string>, rows: seq<Fields>)
    requires FromWorkspace(ws, rows)
    ensures SeenEmails(ws, rows, 0, map[]) && SeenWallets(ws, rows, 0, map[]) && Reported(ws, o, header, rows, 0, [])
  {
  }

  /** The rows under the header, read. */
  function ReadRows(ws: Workspace, o: Oracles, header: seq<string>, data: seq<seq<string>>): (rows: seq<Fields>)
    ensures |rows| == |data| && FromWorkspace(ws, rows)
  {
    seq(|data|, k requires 0 <= k < |data| => ReadFields(ws, o, header, data[k]))
  }

  /** What an accepted file is. */
  ghost predicate Acceptable(ws: Workspace, o: Oracles, text: string, byteLength: nat) {
    var parsed := CsvText.ParseCsv(text);
    && byteLength <= MAX_BYTES
    && 2 <= |parsed| <= MAX_ROWS + 1
    && HeaderOk(ws, Header(o, parsed[0]))
    && var rows := ReadRows(ws, o, Header(o, parsed[0]), parsed[1..]);
       (forall k :: 0 <= k < |rows| ==> !RowBad(ws, o, rows, k)) && !OverLimit(ws, |rows|)
  }

  /** What a heading problem is: a blank or unknown heading, or no contact column. */
  ghost predicate HeaderFault(ws: Workspace, header: seq<string>, p: Problem) {
    || (p == Problem(1, "", ContactColumnMissing) && "email" !in header && "wallet_id" !in header && "phone" !in header)
    || exists i :: 0 <= i < |header| && HeadingFault(ws, header[i], i, p)
  }

  predicate HeadingFault(ws: Workspace, name: string, i: nat, p: Problem) {
    if name == "" then p == Problem(1, ColumnNames.Name(i), BlankHeading)
    else !KnownKey(ws, name) && p == Problem(1, ColumnNames.Name(i), UnknownHeading(name))
  }

  /** What the report on a file says. */
  ghost predicate Explains(ws: Workspace, o: Oracles, text: string, byteLength: nat, errors: seq<Problem>) {
    var parsed := CsvText.ParseCsv(text);
    if byteLength > MAX_BYTES then errors == [Problem(0, "", FileTooLarge)]
    else if parsed == [] then errors == [Problem(0, "", FileEmpty)]
    else
      var header := Header(o, parsed[0]);
      if !HeaderOk(ws, header) then forall p :: p in errors <==> HeaderFault(ws, header, p)
      else if |parsed| == 1 then errors == [Problem(2, "", NoRows)]
      else if |parsed| > MAX_ROWS + 1 then errors == [Problem(0, "", TooManyRows(|parsed| - 1))]
      else RowsReport(ws, o, header, ReadRows(ws, o, header, parsed[1..]), errors)
  }

  method ValidateCsv(ws: Workspace, o: Oracles, text: string, byteLength: nat)
    returns (inputs: seq<Input>, errors: seq<Problem>)
    ensures Explains(ws, o, text, byteLength, errors)
    ensures errors == [] <==> Acceptable(ws, o, text, byteLength)
    ensures inputs == if errors == [] then
                        var parsed := CsvText.ParseCsv(text);
                        Inputs(ws, o, ReadRows(ws, o, Header(o, parsed[0]), parsed[1..]))
                      else []
  {
    hide RowBad, HeaderOk, CsvText.ParseCsv, OverLimit, InputOf, ReadFields, HeaderFault, RowsReport;
    if byteLength > MAX_BYTES {
      return [], [Problem(0, "", FileTooLarge)];
    }
    var parsed := CsvText.ReadCsv(text);
    if |parsed| == 0 {
      return [], [Problem(0, "", FileEmpty)];
    }
    var header := Header(o, parsed[0]);
    errors := CheckHeader(ws, header);
    if |errors| > 0 {
      return [], errors;
    }
    var data := parsed[1..];
    if |data| == 0 {
      return [], [Problem(2, "", NoRows)];
    }
    if |data| > MAX_ROWS {
      return [], [Problem(0, "", TooManyRows(|data|))];
    }
    inputs, errors := ValidateRows(ws, o, header, ReadRows(ws, o, header, data));
    ReportEmpty(ws, o, header, ReadRows(ws, o, header, data), errors);
  }

  // ---------------------------------------------------------------------
  // Reported lines and the rows of the file

  /** The row of the spreadsheet, from 1, that holds the k-th row read. */
  function SpreadsheetLine(text: string, k: nat): nat
    requires k < |CsvText.ParseCsv(text)|
  {
    CsvText.Pos(CsvText.RawRows(text), k) + 1
  }

  /** A problem of a row is about the row read before its line; that line is its row in
      the spreadsheet exactly if no blank row comes before it, and otherwise short
      by the number of those. */
  lemma ReportedLine(ws: Workspace, o: Oracles, text: string, errors: seq<Problem>, p: Problem)
    requires CsvText.ParseCsv(text) != []
    requires var parsed := CsvText.ParseCsv(text);
             var header := Header(o, parsed[0]);
             RowsReport(ws, o, header, ReadRows(ws, o, header, parsed[1..]), errors)
    requires p in errors && !p.kind.PlanLimit?
    ensures var parsed, raw, k := CsvText.ParseCsv(text), CsvText.RawRows(text), p.row - 1;
            && 1 <= k < |parsed|
            && Fault(ws, o, ReadRows(ws, o, Header(o, parsed[0]), parsed[1..]), k - 1, p.kind)
            && raw[SpreadsheetLine(text, k) - 1] == parsed[k]
            && SpreadsheetLine(text, k) == p.row + CsvText.Blanks(raw[..SpreadsheetLine(text, k) - 1])
            && (SpreadsheetLine(text, k) == p.row <==>
                  forall j :: 0 <= j < SpreadsheetLine(text, k) - 1 ==> !CsvText.BlankRow(raw[j]))
  {
    hide Fault, Sorted, CsvText.ParseCsv, CsvText.RawRows, CsvText.BlankRow, CsvText.NonBlank, ReadFields;
    CsvText.ReadRowAt(text, p.row - 1);
  }

  lemma OneField(name: string, cell: string)
    requires Trim(cell) == cell
    ensures Field([name], [cell], name) == cell && ColumnOf([name], name) == 0
  {
    hide Trim;
  }

  lemma EmailRead(ws: Workspace, o: Oracles, header: seq<string>, data: seq<seq<string>>, k: nat)
    requires k < |data|
    ensures ReadRows(ws, o, header, data)[k].email == o.lower(Field(header, data[k], "email"))
  {
    hide Field, Tokens;
  }

  lemma EmailFaultReported(ws: Workspace, o: Oracles, header: seq<string>, rows: seq<Fields>, errors: seq<Problem>,
                           k: nat)
    requires FromWorkspace(ws, rows) && RowsReport(ws, o, header, rows, errors) && k < |rows|
    requires rows[k].email != "" && !o.emailOk(rows[k].email)
    ensures At(header, k + 2, EmailFormat) in errors
  {
    hide Sorted;
    assert Fault(ws, o, rows, k, EmailFormat);
    KindAt(header, k + 2, EmailFormat);
    hide Fault, At;
  }

  lemma FirstColumn(header: seq<string>, line: nat)
    requires ColumnOf(header, "email") == 0
    ensures At(header, line, EmailFormat) == Problem(line, "A", EmailFormat)
  {
    assert ColumnNames.Name(0) == "A";
    hide ColumnOf;
  }

  lemma BadEmailReported(ws: Workspace, o: Oracles, errors: seq<Problem>, data: seq<seq<string>>)
    requires o.lower("bad") == "bad" && !o.emailOk("bad") && Trim("bad") == "bad" && data == [["bad"]]
    requires RowsReport(ws, o, ["email"], ReadRows(ws, o, ["email"], data), errors)
    ensures Problem(2, "A", EmailFormat) in errors
  {
    hide *;
    var header := ["email"];
    OneField("email", "bad");
    EmailRead(ws, o, header, data, 0);
    EmailFaultReported(ws, o, header, ReadRows(ws, o, header, data), errors, 0);
    FirstColumn(header, 2);
  }

  lemma SolidWords()
    ensures Trim("email") == "email" && Trim("bad") == "bad"
  {
    hide Trim;
    TrimSolid("email");
    TrimSolid("bad");
  }

  lemma LineOf(text: string, k: nat)
    requires k < |CsvText.ParseCsv(text)|
    ensures SpreadsheetLine(text, k) == CsvText.Pos(CsvText.RawRows(text), k) + 1
  {
    hide CsvText.ParseCsv, CsvText.RawRows, CsvText.Pos;
  }

  /** The report of a file with one data row and good headings. */
  lemma ExplainsRows(ws: Workspace, o: Oracles, text: string, byteLength: nat, errors: seq<Problem>)
    requires Explains(ws, o, text, byteLength, errors) && byteLength <= 1024
    requires |CsvText.ParseCsv(text)| == 2 && HeaderOk(ws, Header(o, CsvText.ParseCsv(text)[0]))
    ensures var parsed := CsvText.ParseCsv(text);
            var header := Header(o, parsed[0]);
            RowsReport(ws, o, header, ReadRows(ws, o, header, parsed[1..]), errors)
  {
    hide CsvText.ParseCsv, RowsReport, HeaderOk, HeaderFault, ReadRows;
  }

  lemma EmailHeader(ws: Workspace, o: Oracles)
    requires o.lower("email") == "email" && Trim("email") == "email"
    ensures HeaderOk(ws, Header(o, ["email"])) && Header(o, ["email"]) == ["email"]
  {
    assert Header(o, ["email"]) == ["email"];
  }

  /** A concrete file whose only fault is in the third row of the spreadsheet and is
      reported at line 2, the second row being blank. */
  lemma BlankRowShiftsLine(ws: Workspace, o: Oracles, errors: seq<Problem>)
    requires o.lower("email") == "email" && o.lower("bad") == "bad" && !o.emailOk("bad")
    requires Explains(ws, o, "email\n\nbad\n", 11, errors)
    ensures Problem(2, "A", EmailFormat) in errors
    ensures |CsvText.ParseCsv("email\n\nbad\n")| == 2 && SpreadsheetLine("email\n\nbad\n", 1) == 3
  {
    hide *;
    SolidWords();
    CsvText.BlankRowRead();
    EmailHeader(ws, o);
    ExplainsRows(ws, o, "email\n\nbad\n", 11, errors);
    assert [["email"], ["bad"]][1..] == [["bad"]];
    BadEmailReported(ws, o, errors, [["bad"]]);
    LineOf("email\n\nbad\n", 1);
  }

  method CheckHeader(ws: Workspace, header: seq<string>) returns (errors: seq<Problem>)
    ensures forall p :: p in errors <==> HeaderFault(ws, header, p)
    ensures errors == [] <==> HeaderOk(ws, header)
  {
    hide KnownKey;
    errors := [];
    for i := 0 to |header|
      invariant forall p :: p in errors <==> exists j :: 0 <= j < i && HeadingFault(ws, header[j], j, p)
      invariant errors == [] <==> forall k :: 0 <= k < i ==> header[k] != "" && KnownKey(ws, header[k])
    {
      ghost var before := errors;
      if header[i] == "" {
        errors := errors + [Problem(1, ColumnNames.Name(i), BlankHeading)];
      } else if !KnownKey(ws, header[i]) {
        errors := errors + [Problem(1, ColumnNames.Name(i), UnknownHeading(header[i]))];
      }
      forall p
        ensures p in errors <==> p in before || HeadingFault(ws, header[i], i, p)
      {
      }
    }
    if !("email" in header || "wallet_id" in header || "phone" in header) {
      errors := errors + [Problem(1, "", ContactColumnMissing)];
    }
  }

  // ---------------------------------------------------------------------
  // What acceptance is worth

  datatype Credential = Credential(email: string, wallet: string)

  predicate Unlike(a: Credential, b: Credential) {
    (a.email != "" ==> a.email != b.email) && (a.wallet != "" ==> a.wallet != b.wallet)
  }

  /** No two credentials share an e-mail or a Wallet ID. */
  ghost predicate Unique(held: seq<Credential>) {
    forall i, j :: 0 <= i < j < |held| ==> Unlike(held[i], held[j])
  }

  /** The workspace describes the credentials that are held. */
  ghost predicate Describes(ws: Workspace, held: seq<Credential>) {
    && ws.credentialCount == |held|
    && (forall i :: 0 <= i < |held| ==>
                      && (held[i].email != "" ==> held[i].email in ws.emails)
                      && (held[i].wallet != "" ==> held[i].wallet in ws.wallets))
  }

  function CredentialOf(a: Input): Credential { Credential(a.email, a.wallet) }

  /** Issuing the rows with these indices, in this order. */
  function IssueAll(held: seq<Credential>, inputs: seq<Input>, order: seq<nat>): (r: seq<Credential>)
    requires forall i :: 0 <= i < |order| ==> order[i] < |inputs|
    ensures |r| == |held| + |order|
  {
    held + seq(|order|, i requires 0 <= i < |order| => CredentialOf(inputs[order[i]]))
  }

  lemma NotTaken(ws: Workspace, o: Oracles, rows: seq<Fields>, k: nat, kind: Kind)
    requires k < |rows| && |rows[k].claims| == |ws.claims| && !RowBad(ws, o, rows, k)
    ensures !TakenFault(ws, rows, k, kind)
  {
    assert !Fault(ws, o, rows, k, kind);
  }

  /** The line of the first row that uses an e-mail. */
  lemma {:induction false} HasFirstEmail(rows: seq<Fields>, email: string, j: nat) returns (line: nat)
    requires j < |rows| && rows[j].email == email
    ensures FirstEmail(rows, email, line)
  {
    if i :| 0 <= i < j && rows[i].email == email {
      line := HasFirstEmail(rows, email, i);
    } else {
      line := j + 2;
    }
  }

  lemma {:induction false} HasFirstWallet(rows: seq<Fields>, wallet: string, j: nat) returns (line: nat)
    requires j < |rows| && rows[j].wallet == Some(wallet)
    ensures FirstWallet(rows, wallet, line)
  {
    if i :| 0 <= i < j && rows[i].wallet == Some(wallet) {
      line := HasFirstWallet(rows, wallet, i);
    } else {
      line := j + 2;
    }
  }

  /** A later row shares nothing with an earlier one. */
  lemma NotRepeated(ws: Workspace, o: Oracles, rows: seq<Fields>, i: nat, j: nat)
    requires FromWorkspace(ws, rows) && NoneBad(ws, o, rows) && i < j < |rows|
    ensures rows[i].email != "" ==> rows[i].email != rows[j].email
    ensures !NoWallet(rows[i]) ==> rows[i].wallet != rows[j].wallet
  {
    hide RowBad, FirstEmail, FirstWallet;
    assert !RowBad(ws, o, rows, j);
    assert rows[..j][i] == rows[i];
    if rows[i].email != "" && rows[i].email == rows[j].email {
      var line := HasFirstEmail(rows[..j], rows[j].email, i);
      NotTaken(ws, o, rows, j, EmailHeld);
      NotTaken(ws, o, rows, j, EmailRepeated(line));
    }
    if !NoWallet(rows[i]) && rows[i].wallet == rows[j].wallet {
      var line := HasFirstWallet(rows[..j], rows[j].wallet.value, i);
      NotTaken(ws, o, rows, j, WalletHeld);
      NotTaken(ws, o, rows, j, WalletRepeated(line));
    }
  }

  lemma AcceptedNotHeld(ws: Workspace, o: Oracles, rows: seq<Fields>, i: nat)
    requires FromWorkspace(ws, rows) && NoneBad(ws, o, rows) && i < |rows|
    ensures var a := InputOf(ws, o, rows[i], i + 2);
            && (a.email != "" ==> a.email !in ws.emails)
            && (a.wallet != "" ==> a.wallet !in ws.wallets)
  {
    assert !RowBad(ws, o, rows, i);
    hide RowBad;
    NotTaken(ws, o, rows, i, EmailHeld);
    NotTaken(ws, o, rows, i, WalletHeld);
  }

  /** The accepted rows are new to the organization and to each other. */
  lemma AcceptedAreNew(ws: Workspace, o: Oracles, rows: seq<Fields>, i: nat, j: nat)
    requires FromWorkspace(ws, rows) && NoneBad(ws, o, rows) && i < |rows| && j < |rows| && i != j
    ensures var a, b := InputOf(ws, o, rows[i], i + 2), InputOf(ws, o, rows[j], j + 2);
            && (a.email != "" ==> a.email !in ws.emails && a.email != b.email)
            && (a.wallet != "" ==> a.wallet !in ws.wallets && a.wallet != b.wallet)
  {
    AcceptedNotHeld(ws, o, rows, i);
    hide RowBad;
    if i < j {
      NotRepeated(ws, o, rows, i, j);
    } else {
      NotRepeated(ws, o, rows, j, i);
    }
  }

  /** The division of an accepted row is the first that its cell denotes, or the root
      when none is named, and its roles are, token by token, the first that each
      denotes; its person type and claim values are among those allowed and its
      lifetime is from 1 to 365 days if given. */
  lemma AcceptedResolves(ws: Workspace, o: Oracles, rows: seq<Fields>, k: nat)
    requires FromWorkspace(ws, rows) && NoneBad(ws, o, rows) && k < |rows|
    ensures var f, a := rows[k], InputOf(ws, o, rows[k], k + 2);
            && (if f.division == "" then a.divisionId == ROOT_DIVISION
                else exists i :: FirstDenoted(o, ws.units, f.division, i) && a.divisionId == ws.units[i].id)
            && |a.roleIds| == |f.roles|
            && (forall i :: 0 <= i < |f.roles| ==> Resolved(ws, o, f.roles[i], a.roleIds[i]))
            && a.personType in ws.personTypes
            && (a.inviteTtlDays.Some? ==> 1 <= a.inviteTtlDays.value <= MAX_INVITE_TTL_DAYS)
            && (a.inviteTtlDays.None? <==> f.ttl == "")
            && (forall c :: c in a.claims ==> exists i :: 0 <= i < |ws.claims| && ws.claims[i].key == c.0
                                                          && (ws.claims[i].options != [] ==>
                                                              c.1 in ws.claims[i].options))
            && a.contact != ""
  {
    var f := rows[k];
    assert !RowBad(ws, o, rows, k);
    hide RowBad, NoneBad;
    NoFieldFaults(ws, o, rows, k);
    hide FieldFault, Find, TtlOk, Digits, FirstDenoted, Resolved;
    AllRolesFound(ws, o, f.roles);
    TtlBounds(f.ttl);
    if f.division != "" {
      FoundIsFirst(o, ws.units, f.division);
    }
  }

  /** The id is that of the first role that the token denotes. */
  ghost predicate Resolved(ws: Workspace, o: Oracles, token: string, id: string) {
    exists r :: FirstDenoted(o, ws.roles, token, r) && id == ws.roles[r].id
  }

  lemma FoundIsFirst(o: Oracles, entries: seq<Named>, token: string)
    requires Find(o, entries, token).Some?
    ensures exists i :: FirstDenoted(o, entries, token, i) && entries[i].id == Find(o, entries, token).value
  {
    hide FirstDenoted;
  }

  /** What the absence of field faults says, spelled out. */
  lemma NoFieldFaults(ws: Workspace, o: Oracles, rows: seq<Fields>, k: nat)
    requires k < |rows| && |rows[k].claims| == |ws.claims| && !RowBad(ws, o, rows, k)
    ensures var f := rows[k];
            && !NoContact(f) && (f.walletText != "" ==> !NoWallet(f)) && f.personType in ws.personTypes
            && (f.division != "" ==> Find(o, ws.units, f.division).Some?)
            && (forall i :: 0 <= i < |f.roles| ==> Find(o, ws.roles, f.roles[i]).Some?)
            && (f.ttl != "" ==> TtlOk(f.ttl))
            && (forall i :: 0 <= i < |ws.claims| ==> !ClaimBad(ws.claims[i], f.claims[i]))
  {
    hide RowBad, Find, TtlOk, Digits, ClaimBad, NoContact, NoWallet;
    var f := rows[k];
    forall kind
      ensures !FieldFault(ws, o, f, kind)
    {
      NoFieldFault(ws, o, rows, k, kind);
    }
    assert !FieldFault(ws, o, f, DivisionUnknown) && !FieldFault(ws, o, f, PersonTypeUnknown)
           && !FieldFault(ws, o, f, TtlFormat);
    assert !FieldFault(ws, o, f, ContactMissing) && !FieldFault(ws, o, f, WalletFormat);
    forall i | 0 <= i < |f.roles|
      ensures Find(o, ws.roles, f.roles[i]).Some?
    {
      assert !FieldFault(ws, o, f, RoleUnknown(f.roles[i]));
    }
    forall i | 0 <= i < |ws.claims|
      ensures !ClaimBad(ws.claims[i], f.claims[i])
    {
      assert !FieldFault(ws, o, f, ClaimValue(ws.claims[i].key));
    }
  }

  lemma NoFieldFault(ws: Workspace, o: Oracles, rows: seq<Fields>, k: nat, kind: Kind)
    requires k < |rows| && |rows[k].claims| == |ws.claims| && !RowBad(ws, o, rows, k)
    ensures !FieldFault(ws, o, rows[k], kind)
  {
    assert !Fault(ws, o, rows, k, kind);
  }

  lemma TtlBounds(text: string)
    ensures TtlOk(text) ==> 1 <= Digits(text) <= MAX_INVITE_TTL_DAYS
  {
  }

  lemma {:induction false} AllRolesFound(ws: Workspace, o: Oracles, tokens: seq<string>)
    requires forall i :: 0 <= i < |tokens| ==> Find(o, ws.roles, tokens[i]).Some?
    ensures |RoleIds(ws, o, tokens)| == |tokens|
    ensures forall i :: 0 <= i < |tokens| ==> Resolved(ws, o, tokens[i], RoleIds(ws, o, tokens)[i])
  {
    hide Find, FirstDenoted;
    if tokens != [] {
      var rest := tokens[1..];
      AllRolesFound(ws, o, rest);
      FoundIsFirst(o, ws.roles, tokens[0]);
      assert forall i :: 1 <= i < |tokens| ==> tokens[i] == rest[i - 1];
    }
  }

  /** Issuing any accepted rows, each at most once, in any order and with any left
      out, keeps e-mails and Wallet IDs unique and stays within the plan. */
  lemma AcceptedIssuesSafely(ws: Workspace, o: Oracles, rows: seq<Fields>, held: seq<Credential>, order: seq<nat>)
    requires FromWorkspace(ws, rows) && NoneBad(ws, o, rows) && !OverLimit(ws, |rows|)
    requires Describes(ws, held) && Unique(held)
    requires forall i :: 0 <= i < |order| ==> order[i] < |rows|
    requires forall i, j :: 0 <= i < j < |order| ==> order[i] != order[j]
    ensures var after := IssueAll(held, Inputs(ws, o, rows), order);
            Unique(after) && (ws.limit.Some? && rows != [] ==> |after| <= ws.limit.value)
  {
    hide Unique, IssueAll, NoneBad, Inputs, Describes;
    var after := IssueAll(held, Inputs(ws, o, rows), order);
    forall i, j | 0 <= i < j < |after|
      ensures Unlike(after[i], after[j])
    {
      IssuedUnlike(ws, o, rows, held, order, i, j);
    }
    UniqueMeans(after);
    DistinctBelow(order, |rows|);
    assert ws.credentialCount == |held| by {
      DescribesCount(ws, held);
    }
  }

  lemma DescribesCount(ws: Workspace, held: seq<Credential>)
    requires Describes(ws, held)
    ensures ws.credentialCount == |held|
  {
  }

  lemma UniqueMeans(held: seq<Credential>)
    requires forall i, j :: 0 <= i < j < |held| ==> Unlike(held[i], held[j])
    ensures Unique(held)
  {
  }

  lemma HeldUnlike(held: seq<Credential>, i: nat, j: nat)
    requires Unique(held) && i < j < |held|
    ensures Unlike(held[i], held[j])
  {
  }

  lemma HeldUnlikeNew(ws: Workspace, o: Oracles, rows: seq<Fields>, held: seq<Credential>, i: nat, k: nat)
    requires FromWorkspace(ws, rows) && NoneBad(ws, o, rows) && Describes(ws, held) && i < |held| && k < |rows|
    ensures Unlike(held[i], CredentialOf(InputOf(ws, o, rows[k], k + 2)))
  {
    AcceptedNotHeld(ws, o, rows, k);
    hide InputOf, NoneBad;
  }

  lemma NewUnlikeNew(ws: Workspace, o: Oracles, rows: seq<Fields>, k: nat, l: nat)
    requires FromWorkspace(ws, rows) && NoneBad(ws, o, rows) && k < |rows| && l < |rows| && k != l
    ensures Unlike(CredentialOf(InputOf(ws, o, rows[k], k + 2)), CredentialOf(InputOf(ws, o, rows[l], l + 2)))
  {
    AcceptedAreNew(ws, o, rows, k, l);
    hide InputOf, NoneBad;
  }

  /** The credentials after issuing: those held, then one for each issued row. */
  lemma IssuedAt(ws: Workspace, o: Oracles, rows: seq<Fields>, held: seq<Credential>, order: seq<nat>, i: nat)
    requires FromWorkspace(ws, rows) && forall i :: 0 <= i < |order| ==> order[i] < |rows|
    requires i < |held| + |order|
    ensures var after, n := IssueAll(held, Inputs(ws, o, rows), order), |held|;
            after[i] == if i < n then held[i] else CredentialOf(InputOf(ws, o, rows[order[i - n]], order[i - n] + 2))
  {
    hide InputOf, CredentialOf;
  }

  lemma IssuedUnlike(ws: Workspace, o: Oracles, rows: seq<Fields>, held: seq<Credential>, order: seq<nat>, i: nat,
                     j: nat)
    requires FromWorkspace(ws, rows) && NoneBad(ws, o, rows) && Describes(ws, held) && Unique(held)
    requires forall i :: 0 <= i < |order| ==> order[i] < |rows|
    requires forall i, j :: 0 <= i < j < |order| ==> order[i] != order[j]
    requires i < j < |held| + |order|
    ensures var after := IssueAll(held, Inputs(ws, o, rows), order); Unlike(after[i], after[j])
  {
    hide *;
    var n := |held|;
    IssuedAt(ws, o, rows, held, order, i);
    IssuedAt(ws, o, rows, held, order, j);
    if j < n {
      HeldUnlike(held, i, j);
    } else {
      if i < n {
        HeldUnlikeNew(ws, o, rows, held, i, order[j - n]);
      } else {
        NewUnlikeNew(ws, o, rows, order[i - n], order[j - n]);
      }
    }
  }

  /** Distinct numbers below n are at most n. */
  lemma {:induction false} DistinctBelow(order: seq<nat>, n: nat)
    requires forall i :: 0 <= i < |order| ==> order[i] < n
    requires forall i, j :: 0 <= i < j < |order| ==> order[i] != order[j]
    ensures |order| <= n
  {
    assert order != [] ==> order[0] < n;
    if n > 0 {
      if i :| 0 <= i < |order| && order[i] == n - 1 {
        var rest := order[..i] + order[i + 1..];
        forall k | 0 <= k < |rest|
          ensures rest[k] < n - 1
        {
          assert rest[k] == order[if k < i then k else k + 1];
        }
        DistinctBelow(rest, n - 1);
      } else {
        DistinctBelow(order, n - 1);
      }
    }
  }
}
