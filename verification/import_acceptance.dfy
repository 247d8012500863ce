/** What the validator accepts and passes on, in terms of the cells of the file and
    of what the organization holds, without the validator's own vocabulary. */
module ImportAcceptance {
  import opened Options
  import opened JsText
  import opened ImportValidation
  import ColumnNames
  import CsvText

  // ---------------------------------------------------------------------
  // Cells

  /** The text under a heading: of several columns with it the last counts, a
      missing column or cell is empty. */
  ghost predicate Under(header: seq<string>, cells: seq<string>, key: string, text: string) {
    if key !in header then text == ""
    else
      exists i :: 0 <= i < |header| && header[i] == key && (forall j :: i < j < |header| ==> header[j] != key) &&
                  text == if i < |cells| then Trim(cells[i]) else ""
  }

  lemma {:induction false} FieldExact(header: seq<string>, cells: seq<string>, key: string)
    ensures Under(header, cells, key, Field(header, cells, key))
    decreases |header|
  {
    hide Trim;
    if header != [] && header[|header| - 1] != key {
      var front := header[..|header| - 1];
      FieldExact(front, cells, key);
      assert header == front + [header[|header| - 1]];
      if key in front {
        var i :| 0 <= i < |front| && front[i] == key && (forall j :: i < j < |front| ==> front[j] != key) &&
                 Field(header, cells, key) == if i < |cells| then Trim(cells[i]) else "";
        assert header[i] == key;
      }
    }
  }

  /** Everything that is read from a row stands in the cell under its heading. */
  lemma RowRead(ws: Workspace, o: Oracles, header: seq<string>, cells: seq<string>)
    ensures var f := ReadFields(ws, o, header, cells);
            && (exists email :: Under(header, cells, "email", email) && f.email == o.lower(email))
            && Under(header, cells, "display_name", f.displayName)
            && Under(header, cells, "wallet_id", f.walletText)
            && f.wallet == (if f.walletText == "" then None else o.parseWallet(f.walletText))
            && Under(header, cells, "phone", f.phone)
            && (exists t :: Under(header, cells, "person_type", t) &&
                            f.personType == o.lower(if t == "" then "employee" else t))
            && Under(header, cells, "division", f.division)
            && (exists roles :: Under(header, cells, "roles", roles) && f.roles == Tokens(roles))
            && Under(header, cells, "invite_ttl_days", f.ttl)
            && |f.claims| == |ws.claims|
            && (forall i :: 0 <= i < |ws.claims| ==> Under(header, cells, "claim_" + ws.claims[i].key, f.claims[i]))
  {
    hide Field, Tokens, Under;
    FieldExact(header, cells, "email");
    FieldExact(header, cells, "display_name");
    FieldExact(header, cells, "wallet_id");
    FieldExact(header, cells, "phone");
    FieldExact(header, cells, "person_type");
    FieldExact(header, cells, "division");
    FieldExact(header, cells, "roles");
    FieldExact(header, cells, "invite_ttl_days");
    forall i | 0 <= i < |ws.claims|
      ensures Under(header, cells, "claim_" + ws.claims[i].key, ReadFields(ws, o, header, cells).claims[i])
    {
      FieldExact(header, cells, "claim_" + ws.claims[i].key);
    }
  }

  /** The pieces with semicolons between them. */
  function Joined(pieces: seq<string>): string
    requires pieces != []
  {
    if |pieces| == 1 then pieces[0] else pieces[0] + [';'] + Joined(pieces[1..])
  }

  /** The pieces that are not blank, trimmed. */
  function Given(pieces: seq<string>): seq<string> {
    if pieces == [] then []
    else (if Blank(pieces[0]) then [] else [Trim(pieces[0])]) + Given(pieces[1..])
  }

  /** The tokens of a cell are what stands between its semicolons. */
  lemma {:induction false} TokensExact(text: string) returns (pieces: seq<string>)
    ensures pieces != [] && Joined(pieces) == text
    ensures forall i :: 0 <= i < |pieces| ==> ';' !in pieces[i]
    ensures Tokens(text) == Given(pieces)
    decreases |text|
  {
    hide Trim, IndexOf, Blank;
    var i := IndexOf(text, ';');
    if i == -1 {
      pieces := [text];
      assert Given(pieces[1..]) == [];
    } else {
      var rest := TokensExact(text[i + 1..]);
      pieces := [text[..i]] + rest;
      assert pieces[1..] == rest;
      assert text == text[..i] + [';'] + text[i + 1..];
    }
  }

  // ---------------------------------------------------------------------
  // Lifetimes

  /** A number in decimal, without leading zeros. */
  function NumberText(n: nat): string {
    if n < 10 then ["0123456789"[n]] else NumberText(n / 10) + ["0123456789"[n % 10]]
  }

  lemma DigitChar(d: int)
    requires 0 <= d < 10
    ensures '0' <= "0123456789"[d] <= '9' && "0123456789"[d] as int - '0' as int == d
  {
  }

  lemma {:induction false} NumberTextDigits(n: nat)
    ensures var t := NumberText(n);
            && t != "" && (forall i :: 0 <= i < |t| ==> '0' <= t[i] <= '9')
            && (n > 0 ==> t[0] != '0') && Digits(t) == n
  {
    DigitChar(n % 10);
    var t := NumberText(n);
    if n < 10 {
      assert t[..0] == "";
    } else {
      NumberTextDigits(n / 10);
      assert t[..|t| - 1] == NumberText(n / 10);
    }
  }

  lemma {:induction false} DigitsNumberText(t: string)
    requires t != "" && t[0] != '0' && forall i :: 0 <= i < |t| ==> '0' <= t[i] <= '9'
    ensures Digits(t) > 0 && NumberText(Digits(t)) == t
  {
    var front, c := t[..|t| - 1], t[|t| - 1];
    var d := c as int - '0' as int;
    DigitChar(d);
    assert t == front + [c];
    if front != "" {
      DigitsNumberText(front);
      assert Digits(t) == Digits(front) * 10 + d;
      assert Digits(t) / 10 == Digits(front) && Digits(t) % 10 == d;
    } else {
      assert Digits(front) == 0;
    }
  }

  ghost predicate Lifetime(text: string) {
    exists n :: 1 <= n <= 365 && text == NumberText(n)
  }

  /** A lifetime is a number from 1 to 365 as it is written in decimal. */
  lemma TtlExact(text: string)
    ensures TtlOk(text) <==> Lifetime(text)
    ensures TtlOk(text) ==> text == NumberText(Digits(text))
  {
    if TtlOk(text) {
      DigitsNumberText(text);
    }
    if n :| 1 <= n <= 365 && text == NumberText(n) {
      NumberTextDigits(n);
    }
  }

  // ---------------------------------------------------------------------
  // Rows and files

  /** A row that can be issued, spelled out. */
  ghost predicate RowGood(ws: Workspace, o: Oracles, rows: seq<Fields>, k: nat)
    requires k < |rows| && |rows[k].claims| == |ws.claims|
  {
    var f := rows[k];
    && (f.email != "" || f.walletText != "" || f.phone != "")
    && (f.email != "" ==> o.emailOk(f.email) && f.email !in ws.emails)
    && (f.email != "" ==> forall j :: 0 <= j < k ==> rows[j].email != f.email)
    && (f.walletText != "" ==> f.wallet.Some? && f.wallet.value != "")
    && (f.wallet.Some? && f.wallet.value != "" ==>
          f.wallet.value !in ws.wallets && forall j :: 0 <= j < k ==> rows[j].wallet != f.wallet)
    && (f.phone != "" ==> o.phoneOk(f.phone))
    && f.personType in ws.personTypes
    && (f.division != "" ==> Known(o, ws.units, f.division))
    && (forall token :: token in f.roles ==> Known(o, ws.roles, token))
    && (f.ttl != "" ==> Lifetime(f.ttl))
    && (forall i :: 0 <= i < |ws.claims| && f.claims[i] != "" && ws.claims[i].options != [] ==>
                      f.claims[i] in ws.claims[i].options)
  }

  /** One of the entries has this id, or this name in letters of either case. */
  ghost predicate Known(o: Oracles, entries: seq<Named>, token: string) {
    exists i :: 0 <= i < |entries| && (entries[i].id == token || o.lower(entries[i].name) == o.lower(token))
  }

  lemma KnownIsFound(o: Oracles, entries: seq<Named>, token: string)
    ensures Find(o, entries, token).Some? <==> Known(o, entries, token)
  {
  }

  lemma EmailTaken(ws: Workspace, rows: seq<Fields>, k: nat)
    requires k < |rows|
    ensures var e := rows[k].email;
            (exists kind: Kind :: (kind.EmailHeld? || kind.EmailRepeated?) && TakenFault(ws, rows, k, kind)) <==>
            e != "" && (e in ws.emails || exists j :: 0 <= j < k && rows[j].email == e)
  {
    hide FirstEmail;
    var e := rows[k].email;
    if e != "" && e in ws.emails {
      assert TakenFault(ws, rows, k, EmailHeld);
    } else if j :| e != "" && 0 <= j < k && rows[j].email == e {
      var line := HasFirstEmail(rows[..k], e, j);
      assert TakenFault(ws, rows, k, EmailRepeated(line));
    }
    if kind: Kind :| kind.EmailRepeated? && TakenFault(ws, rows, k, kind) {
      FirstEmailRow(rows[..k], e, kind.line);
    }
  }

  lemma FirstEmailRow(rows: seq<Fields>, email: string, line: nat)
    requires FirstEmail(rows, email, line)
    ensures 0 <= line - 2 < |rows| && rows[line - 2].email == email
  {
  }

  lemma WalletTaken(ws: Workspace, rows: seq<Fields>, k: nat)
    requires k < |rows|
    ensures var w := rows[k].wallet;
            (exists kind: Kind :: (kind.WalletHeld? || kind.WalletRepeated?) && TakenFault(ws, rows, k, kind)) <==>
            w.Some? && w.value != "" && (w.value in ws.wallets || exists j :: 0 <= j < k && rows[j].wallet == w)
  {
    hide FirstWallet;
    var w := rows[k].wallet;
    if w.Some? && w.value != "" {
      if w.value in ws.wallets {
        assert TakenFault(ws, rows, k, WalletHeld);
      } else if j :| 0 <= j < k && rows[j].wallet == w {
        var line := HasFirstWallet(rows[..k], w.value, j);
        assert TakenFault(ws, rows, k, WalletRepeated(line));
      }
    }
    if kind: Kind :| kind.WalletRepeated? && TakenFault(ws, rows, k, kind) {
      FirstWalletRow(rows[..k], w.value, kind.line);
    }
  }

  lemma FirstWalletRow(rows: seq<Fields>, wallet: string, line: nat)
    requires FirstWallet(rows, wallet, line)
    ensures 0 <= line - 2 < |rows| && rows[line - 2].wallet == Some(wallet)
  {
  }

  /** A row is accepted exactly if it is good. */
  lemma RowGoodExact(ws: Workspace, o: Oracles, rows: seq<Fields>, k: nat)
    requires k < |rows| && |rows[k].claims| == |ws.claims|
    ensures !RowBad(ws, o, rows, k) <==> RowGood(ws, o, rows, k)
  {
    hide *;
    if !RowBad(ws, o, rows, k) {
      NotBadIsGood(ws, o, rows, k);
    }
    if RowGood(ws, o, rows, k) {
      GoodIsNotBad(ws, o, rows, k);
    }
  }

  lemma NotBadIsGood(ws: Workspace, o: Oracles, rows: seq<Fields>, k: nat)
    requires k < |rows| && |rows[k].claims| == |ws.claims| && !RowBad(ws, o, rows, k)
    ensures RowGood(ws, o, rows, k)
  {
    var f := rows[k];
    NoFieldFaults(ws, o, rows, k);
    NoFieldFault(ws, o, rows, k, EmailFormat);
    NoFieldFault(ws, o, rows, k, PhoneFormat);
    EmailTaken(ws, rows, k);
    WalletTaken(ws, rows, k);
    forall kind
      ensures !TakenFault(ws, rows, k, kind)
    {
      NotTaken(ws, o, rows, k, kind);
    }
    hide RowBad, Find, TtlOk, TakenFault, Known, Lifetime;
    if f.division != "" {
      KnownIsFound(o, ws.units, f.division);
    }
    forall token | token in f.roles
      ensures Known(o, ws.roles, token)
    {
      KnownIsFound(o, ws.roles, token);
    }
    TtlExact(f.ttl);
  }

  lemma GoodIsNotBad(ws: Workspace, o: Oracles, rows: seq<Fields>, k: nat)
    requires k < |rows| && |rows[k].claims| == |ws.claims| && RowGood(ws, o, rows, k)
    ensures !RowBad(ws, o, rows, k)
  {
    var f := rows[k];
    EmailTaken(ws, rows, k);
    WalletTaken(ws, rows, k);
    forall kind
      ensures !TakenFault(ws, rows, k, kind)
    {
      hide FirstEmail, FirstWallet;
      assert TakenFault(ws, rows, k, kind) ==>
          kind.EmailHeld? || kind.EmailRepeated? || kind.WalletHeld? || kind.WalletRepeated?;
      hide TakenFault;
    }
    hide TakenFault, Find, TtlOk, Known, Lifetime;
    KnownIsFound(o, ws.units, f.division);
    TtlExact(f.ttl);
    forall kind
      ensures !FieldFault(ws, o, f, kind)
    {
      match kind {
        case RoleUnknown(token) => KnownIsFound(o, ws.roles, token);
        case ClaimValue(key) =>
          assert forall i :: 0 <= i < |ws.claims| ==> !ClaimBad(ws.claims[i], f.claims[i]);
        case _ =>
      }
    }
  }

  /** A file's headings are good exactly if each is one of the eight of the template
      or of a claim, and one of them names a contact. */
  lemma HeadingsExact(ws: Workspace, header: seq<string>)
    ensures HeaderOk(ws, header) <==>
            && (forall name :: name in header ==> name != "" && Heading(ws, name))
            && (exists name :: name in header && name in {"email", "wallet_id", "phone"})
  {
    hide Heading, KnownKey;
    forall name
      ensures KnownKey(ws, name) <==> Heading(ws, name)
    {
      HeadingKnown(ws, name);
    }
    assert forall i :: 0 <= i < |header| ==> header[i] in header;
    if name :| name in header && name in {"email", "wallet_id", "phone"} {
      assert name == "email" || name == "wallet_id" || name == "phone";
    }
    assert "email" in {"email", "wallet_id", "phone"} && "wallet_id" in {"email", "wallet_id", "phone"}
           && "phone" in {"email", "wallet_id", "phone"};
  }

  ghost predicate Heading(ws: Workspace, name: string) {
    || name in {"email", "display_name", "wallet_id", "phone", "person_type", "division", "roles", "invite_ttl_days"}
    || exists claim :: claim in ws.claims && name == "claim_" + claim.key
  }

  lemma HeadingKnown(ws: Workspace, name: string)
    ensures KnownKey(ws, name) <==> Heading(ws, name)
  {
    hide *;
    if KnownKey(ws, name) {
      KnownIsHeading(ws, name);
    }
    if Heading(ws, name) {
      HeadingIsKnown(ws, name);
    }
  }

  lemma KnownIsHeading(ws: Workspace, name: string)
    requires KnownKey(ws, name)
    ensures Heading(ws, name)
  {
    if i :| 0 <= i < |ws.claims| && name == "claim_" + ws.claims[i].key {
      assert ws.claims[i] in ws.claims;
    }
  }

  lemma HeadingIsKnown(ws: Workspace, name: string)
    requires Heading(ws, name)
    ensures KnownKey(ws, name)
  {
    if claim :| claim in ws.claims && name == "claim_" + claim.key {
      var i :| 0 <= i < |ws.claims| && ws.claims[i] == claim;
    }
  }

  /** The plan has room for n more exactly if the credentials held and these are
      within its limit. */
  lemma PlanExact(ws: Workspace, n: nat)
    requires n > 0
    ensures !OverLimit(ws, n) <==> ws.limit.None? || ws.credentialCount + n <= ws.limit.value
  {
  }

  /** A file is accepted exactly if it is at most a megabyte long, has good headings
      and 1 to 1000 rows, all good, for which the plan has room. */
  lemma AcceptedExactly(ws: Workspace, o: Oracles, text: string, byteLength: nat)
    ensures Acceptable(ws, o, text, byteLength) <==>
            var parsed := CsvText.ParseCsv(text);
            && byteLength <= 1048576
            && 2 <= |parsed| <= 1001
            && var header := Header(o, parsed[0]);
               var rows := ReadRows(ws, o, header, parsed[1..]);
               && HeaderOk(ws, header)
               && (forall k :: 0 <= k < |rows| ==> RowGood(ws, o, rows, k))
               && (ws.limit.None? || ws.credentialCount + |rows| <= ws.limit.value)
  {
    hide CsvText.ParseCsv, RowBad, RowGood, HeaderOk, OverLimit, ReadFields;
    var parsed := CsvText.ParseCsv(text);
    if 2 <= |parsed| {
      var rows := ReadRows(ws, o, Header(o, parsed[0]), parsed[1..]);
      PlanExact(ws, |rows|);
      forall k | 0 <= k < |rows|
        ensures !RowBad(ws, o, rows, k) <==> RowGood(ws, o, rows, k)
      {
        RowGoodExact(ws, o, rows, k);
      }
    }
  }

  /** The column that a kind of problem belongs to. */
  function Concerns(kind: Kind): Option<string> {
    if kind.EmailFormat? || kind.EmailHeld? || kind.EmailRepeated? then Some("email")
    else if kind.WalletFormat? || kind.WalletHeld? || kind.WalletRepeated? then Some("wallet_id")
    else if kind.PhoneFormat? then Some("phone")
    else if kind.PersonTypeUnknown? then Some("person_type")
    else if kind.DivisionUnknown? then Some("division")
    else if kind.RoleUnknown? then Some("roles")
    else if kind.TtlFormat? then Some("invite_ttl_days")
    else if kind.ClaimValue? then Some("claim_" + kind.key)
    else None
  }

  /** A problem of a row names the first column with the heading that it concerns. */
  lemma ProblemColumn(header: seq<string>, line: nat, kind: Kind)
    ensures var p := At(header, line, kind);
            && p.row == line && p.kind == kind
            && match Concerns(kind)
               case None => p.column == ""
               case Some(key) =>
                 if key !in header then p.column == ""
                 else exists i :: 0 <= i < |header| && header[i] == key && key !in header[..i] &&
                                  ColumnNames.Column(p.column) == i && ColumnNames.IsName(p.column)
  {
    hide ColumnNames.Name, ColumnNames.Column, ColumnNames.IsName;
    assert ColumnNames.Name(-1) == "" by {
      NoColumn();
    }
    if Concerns(kind).Some? {
      var i := ColumnOf(header, Concerns(kind).value);
      ColumnNames.ColumnOfName(i);
    }
  }

  lemma NoColumn()
    ensures ColumnNames.Name(-1) == ""
  {
  }

  /** What is issued for an accepted row is what it says. */
  lemma AcceptedInput(ws: Workspace, o: Oracles, rows: seq<Fields>, k: nat)
    requires FromWorkspace(ws, rows) && NoneBad(ws, o, rows) && k < |rows|
    ensures |Inputs(ws, o, rows)| == |rows|
    ensures var f, a := rows[k], Inputs(ws, o, rows)[k];
            && a == InputOf(ws, o, f, k + 2) && a.line == k + 2
            && a.email == f.email && a.displayName == f.displayName && a.phone == f.phone
            && a.personType == f.personType
            && a.wallet == (if f.wallet.Some? then f.wallet.value else "")
            && (f.ttl == "" ==> a.inviteTtlDays.None?)
            && (f.ttl != "" ==> a.inviteTtlDays.Some? && f.ttl == NumberText(a.inviteTtlDays.value))
            && (forall x :: x in a.claims <==> exists i :: 0 <= i < |ws.claims| && f.claims[i] != "" &&
                                                           x == (ws.claims[i].key, f.claims[i]))
            && a.contact == (if f.email != "" then f.email else if a.wallet != "" then a.wallet else f.phone)
  {
    var f := rows[k];
    assert !RowBad(ws, o, rows, k);
    NoFieldFaults(ws, o, rows, k);
    TtlExact(f.ttl);
    hide RowBad, Find, TtlOk, Digits, NumberText, Division, RoleIds;
  }
}
