/** Scope lists: joining an API key's scopes into a claims string and scanning that string for one scope. */
module Scopes {
  import opened Wrappers

  /** The pieces of `s` between single spaces; never empty. */
  function Split(s: string): (pieces: seq<string>)
    ensures pieces != []
  {
    var n := FirstSpace(s);
    if n == |s| then [s] else [s[..n]] + Split(s[n + 1..])
  }

  function FirstSpace(s: string): (n: nat)
    ensures n <= |s| && (n < |s| ==> s[n] == ' ')
    ensures forall i :: 0 <= i < n ==> s[i] != ' '
  {
    if s == "" || s[0] == ' ' then 0 else 1 + FirstSpace(s[1..])
  }

  /** The join of the key's scopes, as ScopeString builds it. */
  function ScopeString(scopes: seq<string>): string {
    if scopes == [] then ""
    else if |scopes| == 1 then scopes[0]
    else scopes[0] + " " + ScopeString(scopes[1..])
  }

  predicate SpaceFree(s: string) {
    ' ' !in s
  }

  lemma FirstSpaceIs(s: string, n: nat)
    requires n <= |s| && (n < |s| ==> s[n] == ' ') && forall i :: 0 <= i < n ==> s[i] != ' '
    ensures FirstSpace(s) == n
  {
  }

  /** `scope` is one of the pieces from position `start` on. */
  ghost predicate Grants(s: string, start: nat, scope: string) {
    start <= |s| && scope in Split(s[start..])
  }

  /** The scanner's cut: the rest from `start` opens with the piece that ends at `i`. */
  lemma NextPiece(s: string, start: nat, i: nat, scope: string)
    requires start <= i <= |s| && (i < |s| ==> s[i] == ' ') && forall j :: start <= j < i ==> s[j] != ' '
    ensures Grants(s, start, scope) <==> scope == s[start..i] || Grants(s, i + 1, scope)
  {
    var rest := s[start..];
    FirstSpaceIs(rest, i - start);
    assert rest[..i - start] == s[start..i];
    if i < |s| {
      assert rest[i - start + 1..] == s[i + 1..];
    } else {
      assert rest == s[start..i];
    }
  }

  /** The text between two positions is a piece: it has no space in it, and spaces or the ends of the text around it. */
  predicate IsPiece(s: string, i: int, j: int) {
    && 0 <= i <= j <= |s| && ' ' !in s[i..j]
    && (i == 0 || s[i - 1] == ' ') && (j == |s| || s[j] == ' ')
  }

  lemma PieceMoves(s: string, n: nat, i: int, j: int)
    requires n < |s| && s[n] == ' ' && n + 1 <= i
    ensures IsPiece(s, i, j) <==> IsPiece(s[n + 1..], i - n - 1, j - n - 1)
    ensures IsPiece(s, i, j) ==> s[i..j] == s[n + 1..][i - n - 1..j - n - 1]
  {
    if i <= j <= |s| {
      assert s[i..j] == s[n + 1..][i - n - 1..j - n - 1];
    }
  }

  /** What the scanner looks for, in terms of the text. */
  lemma {:induction false} GrantedInText(s: string, w: string)
    ensures w in Split(s) <==> exists i, j :: IsPiece(s, i, j) && s[i..j] == w
  {
    var n := FirstSpace(s);
    assert IsPiece(s, 0, n) && s[0..n] == s[..n];
    if n < |s| {
      var rest := s[n + 1..];
      GrantedInText(rest, w);
      if w in Split(rest) {
        var i, j :| IsPiece(rest, i, j) && rest[i..j] == w;
        PieceMoves(s, n, i + n + 1, j + n + 1);
      }
      if i, j :| IsPiece(s, i, j) && s[i..j] == w {
        if i > n {
          PieceMoves(s, n, i, j);
          assert IsPiece(rest, i - n - 1, j - n - 1) && rest[i - n - 1..j - n - 1] == w;
        } else {
          FirstPiece(s, i, j);
        }
      }
    } else {
      assert s[0..n] == s;
      if i, j :| IsPiece(s, i, j) && s[i..j] == w {
        FirstPiece(s, i, j);
      }
    }
  }

  lemma FirstPiece(s: string, i: int, j: int)
    requires IsPiece(s, i, j) && i <= FirstSpace(s)
    ensures i == 0 && j == FirstSpace(s)
  {
    SpaceInside(s, i, j, FirstSpace(s));
  }

  lemma SpaceInside(s: string, i: int, j: int, n: int)
    requires 0 <= i <= j <= |s|
    ensures i <= n < j && s[n] == ' ' ==> ' ' in s[i..j]
  {
    if i <= n < j {
      assert s[i..j][n - i] == s[n];
    }
  }

  // ---------------------------------------------------------------- the scanner

  /** Claims.HasScope; absent claims carry no scope at all. */
  method HasScope(claims: Option<string>, scope: string) returns (found: bool)
    ensures found <==> claims.Some? && scope in Split(claims.value)
  {
    if claims == None {
      return false;
    }
    var start := 0;
    var s := claims.value;
    assert s[0..] == s;
    var i := 0;
    while i <= |s|
      invariant 0 <= start <= i <= |s| + 1
      invariant i == |s| + 1 ==> start == |s| + 1
      invariant forall j :: start <= j < i <= |s| ==> s[j] != ' '
      invariant Grants(s, 0, scope) <==> Grants(s, start, scope)
    {
      if i == |s| || s[i] == ' ' {
        NextPiece(s, start, i, scope);
        if s[start..i] == scope {
          return true;
        }
        start := i + 1;
      }
      i := i + 1;
    }
    return false;
  }

  /** APIKey.HasScope. */
  method KeyHasScope(scopes: seq<string>, scope: string) returns (found: bool)
    ensures found <==> scope in scopes
  {
    for i := 0 to |scopes|
      invariant scope !in scopes[..i]
    {
      if scopes[i] == scope {
        return true;
      }
    }
    return false;
  }

  const VALID_SCOPES := {"read", "write", "admin"}

  predicate AllValid(scopes: seq<string>) {
    forall i :: 0 <= i < |scopes| ==> scopes[i] in VALID_SCOPES
  }

  /** ValidateScopes: the empty message means the list is accepted. */
  method ValidateScopes(scopes: seq<string>) returns (message: string)
    ensures message == "" <==> scopes != [] && AllValid(scopes)
    ensures message == "" ==>
              forall i :: 0 <= i < |scopes| ==> scopes[i] == "read" || scopes[i] == "write" || scopes[i] == "admin"
    ensures scopes == ["read"] || scopes == ["write"] || scopes == ["admin"] ==> message == ""
    ensures forall i :: 0 <= i < |scopes| && scopes[i] !in VALID_SCOPES && AllValid(scopes[..i]) ==>
              message == "invalid scope: " + scopes[i] + " (must be one of: read, write, admin)"
  {
    for i := 0 to |scopes|
      invariant AllValid(scopes[..i])
    {
      if scopes[i] !in VALID_SCOPES {
        message := "invalid scope: " + scopes[i] + " (must be one of: read, write, admin)";
        assert message[0] == 'i';
        assert forall k :: 0 <= k < i ==> scopes[..i][k] == scopes[k];
        forall k | i < k < |scopes|
          ensures !AllValid(scopes[..k])
        {
          assert scopes[..k][i] == scopes[i];
        }
        return;
      }
    }
    assert scopes[..|scopes|] == scopes;
    if |scopes| == 0 {
      return "at least one scope is required";
    }
    return "";
  }

  // ---------------------------------------------------------------- join and scan

  lemma {:induction false} SplitOfJoin(scopes: seq<string>)
    requires scopes != [] && forall i :: 0 <= i < |scopes| ==> SpaceFree(scopes[i])
    ensures Split(ScopeString(scopes)) == scopes
  {
    var head := scopes[0];
    assert forall k :: 0 <= k < |head| ==> head[k] in head;
    if |scopes| == 1 {
      FirstSpaceIs(head, |head|);
    } else {
      var rest := ScopeString(scopes[1..]);
      var s := head + " " + rest;
      FirstSpaceIs(s, |head|);
      assert s[..|head|] == head && s[|head| + 1..] == rest;
      SplitOfJoin(scopes[1..]);
    }
  }

  lemma {:induction false} PiecesAreSpaceFree(s: string, w: string)
    requires w in Split(s)
    ensures SpaceFree(w)
  {
    var n := FirstSpace(s);
    if n < |s| && w in Split(s[n + 1..]) {
      PiecesAreSpaceFree(s[n + 1..], w);
    }
  }

  /** The joined string grants exactly the key's scopes if and only if there is one and none contains a space. */
  lemma JoinThenScanIff(scopes: seq<string>)
    ensures (forall w :: w in Split(ScopeString(scopes)) <==> w in scopes)
       <==> scopes != [] && forall i :: 0 <= i < |scopes| ==> SpaceFree(scopes[i])
  {
    if scopes == [] {
      var w := "";
      assert Split(w) == [w];
      assert w in Split(ScopeString(scopes)) && w !in scopes;
    } else if i :| 0 <= i < |scopes| && !SpaceFree(scopes[i]) {
      if scopes[i] in Split(ScopeString(scopes)) {
        PiecesAreSpaceFree(ScopeString(scopes), scopes[i]);
      }
      assert scopes[i] in scopes;
    } else {
      SplitOfJoin(scopes);
    }
  }

  /** Every key that passes validation meets the condition, so claims built from it answer as the key does. */
  lemma {:induction false} ValidatedKeysRoundTrip(scopes: seq<string>, w: string)
    requires scopes != [] && AllValid(scopes)
    ensures w in Split(ScopeString(scopes)) <==> w in scopes
  {
    forall i | 0 <= i < |scopes|
      ensures SpaceFree(scopes[i])
    {
      ValidIsSpaceFree(scopes[i]);
    }
    SplitOfJoin(scopes);
  }

  lemma ValidIsSpaceFree(w: string)
    requires w in VALID_SCOPES
    ensures SpaceFree(w)
  {
    assert SpaceFree("read") && SpaceFree("write") && SpaceFree("admin");
  }
}
