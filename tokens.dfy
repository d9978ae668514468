/** The ledger of issued access tokens: the Token entity, whose flags are
    changed in place, and TokenService's lookups and saves.

    The ledger holds the token objects themselves, as one persistence
    context does: a lookup hands out the stored object, a change to its
    flags is a change to the stored token, and saving an object the ledger
    already holds stores its current flags. Saving a new object inserts it,
    unless its token string is taken (the column is unique). */
module Tokens {
  import opened Wrappers
  import opened Errors
  import opened Users

  /** The token types; bearer is the only one. */
  datatype TokenType = Bearer

  /** The columns of one stored token, the generated id aside. Two tokens
      with equal rows are equal entities: the entity's equality excludes the
      id. */
  datatype TokenRow = TokenRow(token: string, tokenType: TokenType, revoked: bool, expired: bool, owner: UserId)
  {
    /** Valid for authorization: neither revoked nor expired. */
    predicate IsValid() {
      !revoked && !expired
    }
  }

  /** A row with both flags set, as supersession and logout leave it. */
  function Revoked(row: TokenRow): TokenRow {
    row.(revoked := true, expired := true)
  }

  /** The row of a newly issued access token. */
  function IssuedRow(token: string, owner: UserId): TokenRow {
    TokenRow(token, Bearer, false, false, owner)
  }

  class Token {
    const token: string
    const tokenType: TokenType
    const owner: UserId
    var revoked: bool
    var expired: bool

    constructor (token: string, tokenType: TokenType, revoked: bool, expired: bool, owner: UserId)
      ensures Row() == TokenRow(token, tokenType, revoked, expired, owner)
    {
      this.token := token;
      this.tokenType := tokenType;
      this.owner := owner;
      this.revoked := revoked;
      this.expired := expired;
    }

    function Row(): TokenRow
      reads this
    {
      TokenRow(token, tokenType, revoked, expired, owner)
    }

    method SetExpired(expired: bool)
      modifies this
      ensures Row() == old(Row()).(expired := expired)
    {
      this.expired := expired;
    }

    method SetRevoked(revoked: bool)
      modifies this
      ensures Row() == old(Row()).(revoked := revoked)
    {
      this.revoked := revoked;
    }
  }

  /** The rows of a sequence of tokens, position by position. */
  function Rows(ts: seq<Token>): (r: seq<TokenRow>)
    reads ts
    ensures |r| == |ts| && forall i | 0 <= i < |ts| :: r[i] == ts[i].Row()
  {
    if ts == [] then [] else [ts[0].Row()] + Rows(ts[1..])
  }

  /** No two tokens share a token string. */
  predicate UniqueTokens(ts: seq<Token>) {
    forall i, j | 0 <= i < j < |ts| :: ts[i].token != ts[j].token
  }

  predicate UniqueRows(rows: seq<TokenRow>) {
    forall i, j | 0 <= i < j < |rows| :: rows[i].token != rows[j].token
  }

  lemma UniqueTokensRows(ts: seq<Token>)
    requires UniqueTokens(ts)
    ensures UniqueRows(Rows(ts))
  {
  }

  /** Tokens with distinct strings are distinct objects. */
  lemma UniqueTokensDistinct(ts: seq<Token>)
    requires UniqueTokens(ts)
    ensures forall i, j | 0 <= i < |ts| && 0 <= j < |ts| && ts[i] == ts[j] :: i == j
  {
  }

  // ---------------------------------------------------------------------
  // Queries

  /** The stored token with the given string, if any. */
  function FindToken(ts: seq<Token>, s: string): (r: Option<Token>)
    ensures r.Some? ==> r.value in ts && r.value.token == s
    ensures r.None? <==> forall i | 0 <= i < |ts| :: ts[i].token != s
  {
    if ts == [] then None
    else if ts[0].token == s then Some(ts[0])
    else FindToken(ts[1..], s)
  }

  /** Under unique strings, the lookup of a stored token's string finds it. */
  lemma {:induction false} FindStoredToken(ts: seq<Token>, t: Token)
    requires UniqueTokens(ts) && t in ts
    ensures FindToken(ts, t.token) == Some(t)
  {
    if ts[0] != t {
      var k :| 0 <= k < |ts| && ts[k] == t;
      assert k != 0;
      assert ts[1..][k - 1] == t;
      FindStoredToken(ts[1..], t);
    }
  }

  /** The user's valid rows, in ledger order. */
  function ValidRows(rows: seq<TokenRow>, user: UserId): (r: seq<TokenRow>)
    ensures forall x :: x in r <==> x in rows && x.owner == user && x.IsValid()
    ensures |r| <= |rows|
  {
    if rows == [] then []
    else if rows[0].owner == user && rows[0].IsValid() then [rows[0]] + ValidRows(rows[1..], user)
    else ValidRows(rows[1..], user)
  }

  /** The user's valid tokens, in ledger order: their rows are exactly the
      user's valid rows. */
  function ValidTokens(ts: seq<Token>, user: UserId): (r: seq<Token>)
    reads ts
    ensures forall t | t in r :: t in ts && t.owner == user && t.Row().IsValid()
    ensures forall t | t in ts && t.owner == user && t.Row().IsValid() :: t in r
    ensures Rows(r) == ValidRows(Rows(ts), user)
  {
    if ts == [] then []
    else
      assert Rows(ts)[1..] == Rows(ts[1..]);
      if ts[0].owner == user && ts[0].Row().IsValid() then [ts[0]] + ValidTokens(ts[1..], user)
      else ValidTokens(ts[1..], user)
  }

  /** A stored token is among the user's valid tokens exactly when its row
      is valid and owned by the user. */
  lemma ValidTokensMembership(ts: seq<Token>, user: UserId)
    ensures forall k | 0 <= k < |ts| ::
              ts[k] in ValidTokens(ts, user) <==> Rows(ts)[k].owner == user && Rows(ts)[k].IsValid()
  {
  }

  /** The forEach of revokeAllUserTokens: both flags set on every token of
      the list, in place. */
  method RevokeEach(ts: seq<Token>)
    modifies set t | t in ts
    ensures forall t | t in ts :: t.Row() == Revoked(old(t.Row()))
  {
    for i := 0 to |ts|
      invariant forall t | t in ts[..i] :: t.Row() == Revoked(old(t.Row()))
      invariant forall t | t in ts && t !in ts[..i] :: t.Row() == old(t.Row())
    {
      assert ts[..i + 1] == ts[..i] + [ts[i]];
      ts[i].SetExpired(true);
      ts[i].SetRevoked(true);
    }
    assert ts[..|ts|] == ts;
  }

  // ---------------------------------------------------------------------
  // Saves, on the stored objects

  /** The effect of saving one token: a stored token is flushed as it is, a
      new one is appended unless its string is taken. */
  function Save(ts: seq<Token>, t: Token): (r: Result<seq<Token>, ServiceError>)
    ensures r.Success? <==> t in ts || forall i | 0 <= i < |ts| :: ts[i].token != t.token
    ensures r.Failure? ==> r.error == DuplicateToken
    ensures r.Success? ==> t in r.value && |ts| <= |r.value| <= |ts| + 1 && r.value[..|ts|] == ts
  {
    if t in ts then Success(ts)
    else if FindToken(ts, t.token).Some? then Failure(DuplicateToken)
    else Success(ts + [t])
  }

  /** The effect of saving a batch: each token saved in turn, and nothing at
      all when one of them fails (the batch is one transaction). */
  function SaveAll(ts: seq<Token>, batch: seq<Token>): (r: Result<seq<Token>, ServiceError>)
    ensures r.Failure? ==> r.error == DuplicateToken
    ensures r.Success? ==> |ts| <= |r.value| && r.value[..|ts|] == ts && forall t | t in batch :: t in r.value
    decreases |batch|
  {
    if batch == [] then Success(ts)
    else
      var next :- Save(ts, batch[0]);
      SaveAll(next, batch[1..])
  }

  /** Saving keeps the strings unique and never removes a token; afterwards
      the token's string looks up the saved object itself. */
  lemma SaveProperties(ts: seq<Token>, t: Token)
    requires UniqueTokens(ts) && Save(ts, t).Success?
    ensures UniqueTokens(Save(ts, t).value)
    ensures Save(ts, t).value[..|ts|] == ts
    ensures FindToken(Save(ts, t).value, t.token) == Some(t)
  {
    var after := Save(ts, t).value;
    assert after[..|ts|] == ts;
    FindStoredToken(after, t);
  }

  /** Saving a batch of tokens the ledger already holds changes nothing. */
  lemma {:induction false} SaveAllStored(ts: seq<Token>, batch: seq<Token>)
    requires forall t | t in batch :: t in ts
    ensures SaveAll(ts, batch) == Success(ts)
    decreases |batch|
  {
    if batch != [] {
      SaveAllStored(ts, batch[1..]);
    }
  }

  /** A batch save keeps the strings unique and never removes a token. */
  lemma {:induction false} SaveAllProperties(ts: seq<Token>, batch: seq<Token>)
    requires UniqueTokens(ts) && SaveAll(ts, batch).Success?
    ensures UniqueTokens(SaveAll(ts, batch).value)
    ensures |SaveAll(ts, batch).value| >= |ts| && SaveAll(ts, batch).value[..|ts|] == ts
    decreases |batch|
  {
    if batch != [] {
      var next := Save(ts, batch[0]).value;
      SaveProperties(ts, batch[0]);
      SaveAllProperties(next, batch[1..]);
      var after := SaveAll(ts, batch).value;
      assert after[..|next|][..|ts|] == after[..|ts|];
    }
  }

  /** Saving a new token is, on rows, recording its row: refused when its
      string is taken, appended otherwise. */
  function Record(rows: seq<TokenRow>, row: TokenRow): (r: Result<seq<TokenRow>, ServiceError>)
    ensures r.Failure? <==> exists i | 0 <= i < |rows| :: rows[i].token == row.token
    ensures r.Failure? ==> r.error == DuplicateToken
    ensures r.Success? ==> r.value == rows + [row]
  {
    if exists i | 0 <= i < |rows| :: rows[i].token == row.token then Failure(DuplicateToken)
    else Success(rows + [row])
  }

  lemma SaveNewRecords(ts: seq<Token>, t: Token)
    requires t !in ts
    ensures Save(ts, t).Success? <==> Record(Rows(ts), t.Row()).Success?
    ensures Save(ts, t).Success? ==> Rows(Save(ts, t).value) == Record(Rows(ts), t.Row()).value
  {
    if FindToken(ts, t.token).Some? {
      var k :| 0 <= k < |ts| && ts[k] == FindToken(ts, t.token).value;
      assert Rows(ts)[k].token == t.token;
    } else {
      assert Rows(ts + [t]) == Rows(ts) + [t.Row()];
    }
  }

  class TokenLedger {
    var rows: seq<Token>

    /** The token-string column is unique. */
    ghost predicate Valid()
      reads this
    {
      UniqueTokens(rows)
    }

    constructor ()
      ensures Valid() && rows == []
    {
      rows := [];
    }

    /** The stored tokens as rows. */
    function Contents(): seq<TokenRow>
      reads this, rows
    {
      Rows(rows)
    }

    /** TokenService.getToken. */
    function GetToken(s: string): (r: Option<Token>)
      reads this
      ensures r.Some? ==> r.value in rows && r.value.token == s
      ensures r.None? <==> forall i | 0 <= i < |rows| :: rows[i].token != s
    {
      FindToken(rows, s)
    }

    /** TokenService.getAllValidTokens. */
    function GetAllValidTokens(user: UserId): (r: seq<Token>)
      reads this, rows
      ensures forall t | t in r :: t in rows && t.owner == user && t.Row().IsValid()
      ensures forall t | t in rows && t.owner == user && t.Row().IsValid() :: t in r
      ensures Rows(r) == ValidRows(Contents(), user)
    {
      ValidTokens(rows, user)
    }

    /** TokenService.saveToken. */
    method SaveToken(t: Token) returns (r: Result<(), ServiceError>)
      requires Valid()
      modifies this
      ensures Valid()
      ensures r == if Save(old(rows), t).Failure? then Failure(DuplicateToken) else Success(())
      ensures rows == if r.Success? then Save(old(rows), t).value else old(rows)
    {
      if t in rows {
        return Success(());
      }
      if FindToken(rows, t.token).Some? {
        return Failure(DuplicateToken);
      }
      SaveProperties(rows, t);
      rows := rows + [t];
      r := Success(());
    }

    /** TokenService.saveAllTokens: saveToken on each element, undone as a
        whole when one of them fails. */
    method SaveAllTokens(batch: seq<Token>) returns (r: Result<(), ServiceError>)
      requires Valid()
      modifies this
      ensures Valid()
      ensures r == if SaveAll(old(rows), batch).Failure? then Failure(DuplicateToken) else Success(())
      ensures rows == if r.Success? then SaveAll(old(rows), batch).value else old(rows)
    {
      var before := rows;
      for i := 0 to |batch|
        invariant Valid()
        invariant SaveAll(before, batch) == SaveAll(rows, batch[i..])
      {
        assert batch[i..][1..] == batch[i + 1..];
        var saved := SaveToken(batch[i]);
        if saved.Failure? {
          rows := before;
          return Failure(DuplicateToken);
        }
      }
      assert batch[|batch|..] == [];
      r := Success(());
    }
  }
}
