/** The write side of urls: creating with collision retry, updating, deleting, each followed by its cache command. */
module UrlHandlers {
  import opened Wrappers
  import opened UrlCache

  const MAX_RETRIES := 3

  const RESERVED := {"healthz", "readyz", "metrics", "api", "admin", "static", "favicon.ico", "robots.txt"}

  predicate IsCodeCharacter(c: char) {
    'a' <= c <= 'z' || 'A' <= c <= 'Z' || '0' <= c <= '9' || c == '-' || c == '_'
  }

  function LowerCase(s: string): string {
    seq(|s|, i requires 0 <= i < |s| => if 'A' <= s[i] <= 'Z' then s[i] + 32 as char else s[i])
  }

  predicate ValidCustomCode(code: string) {
    && 3 <= |code| <= 32
    && (forall i :: 0 <= i < |code| ==> IsCodeCharacter(code[i]))
    && LowerCase(code) !in RESERVED
  }

  /** The same letters, apart from capitals in `code`. */
  predicate SameUpToCase(code: string, word: string) {
    |code| == |word| && forall i :: 0 <= i < |code| ==>
      code[i] == word[i] || ('A' <= code[i] <= 'Z' && code[i] as int + 32 == word[i] as int)
  }

  lemma LowerCaseIff(code: string, word: string)
    requires forall i :: 0 <= i < |word| ==> !('A' <= word[i] <= 'Z')
    ensures LowerCase(code) == word <==> SameUpToCase(code, word)
  {
  }

  /** Exactly these are custom codes: 3 to 32 letters, digits, hyphens, underscores, no reserved path in any case. */
  lemma CustomCodeIff(code: string)
    ensures ValidCustomCode(code) <==>
              && 3 <= |code| <= 32
              && (forall i :: 0 <= i < |code| ==>
                    || 'a' <= code[i] <= 'z' || 'A' <= code[i] <= 'Z' || '0' <= code[i] <= '9'
                    || code[i] == '-' || code[i] == '_')
              && !SameUpToCase(code, "healthz") && !SameUpToCase(code, "readyz") && !SameUpToCase(code, "metrics")
              && !SameUpToCase(code, "api") && !SameUpToCase(code, "admin") && !SameUpToCase(code, "static")
              && !SameUpToCase(code, "favicon.ico") && !SameUpToCase(code, "robots.txt")
  {
    LowerCaseIff(code, "healthz");
    LowerCaseIff(code, "readyz");
    LowerCaseIff(code, "metrics");
    LowerCaseIff(code, "api");
    LowerCaseIff(code, "admin");
    LowerCaseIff(code, "static");
    LowerCaseIff(code, "favicon.ico");
    LowerCaseIff(code, "robots.txt");
  }

  lemma MarkedHasColon(code: string)
    ensures Marked(code) ==> exists i :: 0 <= i < |code| && code[i] == ':'
  {
    if Marked(code) {
      assert MARK[|MARK| - 1] == ':';
      assert code[|MARK| - 1] == ':';
    }
  }

  /** No custom code is marked: the marker ends in a colon. */
  lemma CustomCodesAreUnmarked(code: string)
    requires ValidCustomCode(code)
    ensures !Marked(code)
  {
    MarkedHasColon(code);
  }

  /** The length part of URL.Validate, which generated codes go through as well. */
  predicate ValidLength(code: string) {
    3 <= |code| <= 32
  }

  datatype Shortened = Created(code: string) | Conflict | Invalid | GeneratorFailed | InsertFailed

  /** How a PATCH or DELETE ends: done, no live row, a target that is not a valid url, or an error of the database. */
  datatype Outcome = Done | NoSuchUrl | BadTarget | DatabaseFailed

  /** What the outside world does to one attempt: the code drawn (none when the generator fails), and the database. */
  datatype Attempt = Attempt(drawn: Option<string>, insertFine: bool)

  /** What the loop does from attempt `k` on. */
  function Attempts(taken: set<string>, attempts: seq<Attempt>, k: nat): Shortened
    requires |attempts| == MAX_RETRIES && k <= MAX_RETRIES
    decreases MAX_RETRIES - k
  {
    if k == MAX_RETRIES then Conflict
    else if attempts[k].drawn == None then GeneratorFailed
    else if !ValidLength(attempts[k].drawn.value) then Invalid
    else if !attempts[k].insertFine then InsertFailed
    else if attempts[k].drawn.value in taken then Attempts(taken, attempts, k + 1)
    else Created(attempts[k].drawn.value)
  }

  /**
    When generator and database work, creation succeeds exactly when one of the three drawn codes is free, and takes
    the first.
   */
  lemma {:induction false} FirstFreeCodeWins(taken: set<string>, attempts: seq<Attempt>, k: nat)
    requires |attempts| == 3 && k <= 3
    requires forall i :: k <= i < 3 ==>
               attempts[i].drawn.Some? && 3 <= |attempts[i].drawn.value| <= 32 && attempts[i].insertFine
    ensures forall j :: k <= j < 3 && attempts[j].drawn.value !in taken
              && (forall i :: k <= i < j ==> attempts[i].drawn.value in taken)
              ==> Attempts(taken, attempts, k) == Created(attempts[j].drawn.value)
    ensures Attempts(taken, attempts, k) == Conflict
       <==> forall i :: k <= i < 3 ==> attempts[i].drawn.value in taken
    decreases 3 - k
  {
    if k < 3 {
      FirstFreeCodeWins(taken, attempts, k + 1);
    }
  }

  /** A drawn code that is too short or too long, a failing generator and a failing database each end the loop. */
  lemma AttemptsThatEnd(taken: set<string>, attempts: seq<Attempt>, k: nat)
    requires |attempts| == 3 && k < 3
    ensures var a := attempts[k];
            && (a.drawn == None ==> Attempts(taken, attempts, k) == GeneratorFailed)
            && (a.drawn.Some? && !(3 <= |a.drawn.value| <= 32) ==> Attempts(taken, attempts, k) == Invalid)
            && (a.drawn.Some? && 3 <= |a.drawn.value| <= 32 && !a.insertFine ==>
                  Attempts(taken, attempts, k) == InsertFailed)
  {
  }

  class UrlService {
    var table: map<string, DbValue>
    const cache: UrlCache

    constructor (cache: UrlCache)
      ensures this.cache == cache && table == map[]
    {
      this.cache := cache;
      table := map[];
    }

    /**
      Shorten: a custom code is tried once, generated codes up to three times; the insert itself is the check. Whether
      the target is a valid url is decided elsewhere.
     */
    method Shorten(target: string, targetValid: bool, expiresAt: Option<int>, customCode: string,
                   attempts: seq<Attempt>,
                   now: int, warmFine: bool)
      returns (r: Shortened)
      requires |attempts| == MAX_RETRIES
      modifies this`table, cache
      ensures !targetValid ==> r == Invalid
      ensures targetValid && customCode != "" ==>
                r == (if !ValidCustomCode(customCode) then Invalid
                      else if !attempts[0].insertFine then InsertFailed
                      else if customCode in old(table) then Conflict else Created(customCode))
      ensures targetValid && customCode == "" ==> r == Attempts(old(table).Keys, attempts, 0)
      ensures r.Created? ==>
                && r.code !in old(table)
                && table == old(table)[r.code := Live(Row(target, Active, expiresAt))]
                && cache.keys == if warmFine
                   then old(cache.keys)[PositiveKey(r.code) :=
                          RowValue(Positive(Row(target, Active, expiresAt), now + cache.cacheTtl, now))]
                   else old(cache.keys)
      ensures !r.Created? ==> table == old(table) && cache.keys == old(cache.keys)
    {
      if !targetValid {
        return Invalid;
      }
      var code := "";
      if customCode != "" {
        if !ValidCustomCode(customCode) {
          return Invalid;
        }
        code := customCode;
      }
      var row := Row(target, Active, expiresAt);
      var conflict := false;
      var attempt := 1;
      while attempt <= MAX_RETRIES
        invariant 1 <= attempt <= MAX_RETRIES + 1
        invariant table == old(table) && cache.keys == old(cache.keys)
        invariant customCode != "" ==> attempt == 1 && code == customCode
        invariant customCode == "" ==> code == ""
        invariant customCode == "" ==> Attempts(table.Keys, attempts, attempt - 1) == Attempts(table.Keys, attempts, 0)
        invariant attempt > 1 ==> conflict
      {
        if code == "" {
          if attempts[attempt - 1].drawn == None {
            return GeneratorFailed;
          }
          code := attempts[attempt - 1].drawn.value;
        }
        if !ValidLength(code) {
          return Invalid;
        }
        if !attempts[attempt - 1].insertFine {
          return InsertFailed;
        }
        if code in table {
          conflict := true;
          if customCode != "" {
            return Conflict;
          }
          code := "";
          attempt := attempt + 1;
          continue;
        }
        table := table[code := Live(row)];
        conflict := false;
        break;
      }
      if conflict {
        return Conflict;
      }
      if warmFine {
        cache.Set(code, row, now, now);
      }
      return Created(code);
    }

    /** Update: read, patch, write every field, invalidate. The read and the write see the same table here. */
    method Update(code: string, patch: Patch, targetValid: bool, readFine: bool, writeFine: bool, deleteFine: bool)
      returns (outcome: Outcome)
      modifies this`table, cache
      ensures outcome ==
              if !readFine then DatabaseFailed
              else if code !in old(table) || !old(table)[code].Live? then NoSuchUrl
              else if patch.target.Some? && !targetValid then BadTarget
              else if !writeFine then DatabaseFailed
              else Done
      ensures table == if outcome.Done? then old(table)[code := Live(ApplyPatch(old(table)[code].row, patch))]
                       else old(table)
      ensures cache.keys == if outcome.Done? && deleteFine then old(cache.keys) - {PositiveKey(code), NegativeKey(code)}
                            else old(cache.keys)
    {
      if !readFine {
        return DatabaseFailed;
      }
      if code !in table || !table[code].Live? {
        return NoSuchUrl;
      }
      var u := table[code].row;
      if patch.target.Some? {
        if !targetValid {
          return BadTarget;
        }
        u := u.(target := patch.target.value);
      }
      if patch.expiresAt.Some? {
        u := u.(expiresAt := patch.expiresAt.value);
      }
      if !writeFine {
        return DatabaseFailed;
      }
      table := table[code := Live(u)];
      if deleteFine {
        cache.Delete(code);
      }
      return Done;
    }

    method Delete(code: string, readFine: bool, writeFine: bool, deleteFine: bool) returns (outcome: Outcome)
      modifies this`table, cache
      ensures outcome ==
              if !readFine then DatabaseFailed
              else if code !in old(table) || !old(table)[code].Live? then NoSuchUrl
              else if !writeFine then DatabaseFailed
              else Done
      ensures table == if outcome.Done? then old(table)[code := SoftDeleted(old(table)[code].row.(status := Deleted))]
                       else old(table)
      ensures cache.keys == if outcome.Done? && deleteFine then old(cache.keys) - {PositiveKey(code), NegativeKey(code)}
                            else old(cache.keys)
    {
      if !readFine {
        return DatabaseFailed;
      }
      if code !in table || !table[code].Live? {
        return NoSuchUrl;
      }
      if !writeFine {
        return DatabaseFailed;
      }
      table := table[code := SoftDeleted(table[code].row.(status := Deleted))];
      if deleteFine {
        cache.Delete(code);
      }
      return Done;
    }
  }
}
