/**
 * scripts/init-turso.ts: read the schema file, cut it into statements at every ';'
 * (string literals and comments included), trim each piece, drop the empty ones, and
 * execute the rest in file order; the first statement that fails ends the run with exit
 * code 1, as does a missing database URL or auth token.
 */
module InitTurso {
  import opened Wrappers

  // ------------------------------------------------------------ the pipeline

  /** The characters `String.prototype.trim` removes (ECMAScript WhiteSpace and LineTerminator). */
  predicate IsSpace(c: char) {
    var n := c as int;
    || n == 0x09 || n == 0x0A || n == 0x0B || n == 0x0C || n == 0x0D || n == 0x20
    || n == 0xA0 || n == 0x1680 || (0x2000 <= n <= 0x200A) || n == 0x2028 || n == 0x2029
    || n == 0x202F || n == 0x205F || n == 0x3000 || n == 0xFEFF
  }

  predicate AllSpace(s: string) {
    forall i :: 0 <= i < |s| ==> IsSpace(s[i])
  }

  /** No white space at either end. */
  predicate Trimmed(s: string) {
    s == [] || (!IsSpace(s[0]) && !IsSpace(s[|s| - 1]))
  }

  /** `sql.split(";")`: the pieces between semicolons, in order; "" splits into [""]. */
  function Split(s: string): (pieces: seq<string>)
    ensures |pieces| >= 1
  {
    if s == [] then [[]]
    else
      var rest := Split(s[1..]);
      if s[0] == ';' then [[]] + rest
      else [[s[0]] + rest[0]] + rest[1..]
  }

  /** `pieces.join(";")`, the inverse of `Split`. */
  function JoinSemi(pieces: seq<string>): string {
    if pieces == [] then []
    else if |pieces| == 1 then pieces[0]
    else pieces[0] + ";" + JoinSemi(pieces[1..])
  }

  function TrimStart(s: string): (r: string)
    ensures |r| <= |s| && r == s[|s| - |r|..]
    ensures r == [] || !IsSpace(r[0])
  {
    if s != [] && IsSpace(s[0]) then TrimStart(s[1..]) else s
  }

  function TrimEnd(s: string): (r: string)
    ensures |r| <= |s| && r == s[..|r|]
    ensures r == [] || !IsSpace(r[|r| - 1])
  {
    if s != [] && IsSpace(s[|s| - 1]) then TrimEnd(s[..|s| - 1]) else s
  }

  /** `s.trim()`: a middle slice of `s`, with only white space cut off around it. */
  function Trim(s: string): (r: string)
    ensures Trimmed(r)
  {
    TrimEnd(TrimStart(s))
  }

  /** `trim` only removes characters. */
  lemma TrimKeepsChars(s: string)
    ensures forall c :: c in Trim(s) ==> c in s
  {
    var head := TrimStart(s);
    var r := TrimEnd(head);
    assert forall k :: 0 <= k < |r| ==> r[k] == head[k] == s[|s| - |head| + k];
  }

  /** `.map((s) => s.trim())`. */
  function Trims(pieces: seq<string>): (r: seq<string>)
    ensures |r| == |pieces|
  {
    if pieces == [] then [] else [Trim(pieces[0])] + Trims(pieces[1..])
  }

  /** `.filter((s) => s.length > 0)`. */
  function Keep(pieces: seq<string>): seq<string> {
    if pieces == [] then []
    else if pieces[0] == [] then Keep(pieces[1..])
    else [pieces[0]] + Keep(pieces[1..])
  }

  /** The statements the script executes. */
  function Statements(sql: string): seq<string> {
    Keep(Trims(Split(sql)))
  }

  // ------------------------------------------------------------ pipeline lemmas

  /** Every statement is non-empty, free of ';' and trimmed. */
  lemma StatementShape(sql: string)
    ensures forall st :: st in Statements(sql) ==> st != [] && ';' !in st && Trimmed(st)
  {
    SplitPieces(sql);
    TrimsShape(Split(sql));
    KeepShape(Trims(Split(sql)));
  }

  /** No piece contains the separator. */
  lemma {:induction false} SplitPieces(s: string)
    ensures forall p :: p in Split(s) ==> ';' !in p
  {
    if s != [] {
      SplitPieces(s[1..]);
      var rest := Split(s[1..]);
      if s[0] != ';' {
        assert rest[0] in rest;
        assert forall p :: p in rest[1..] ==> p in rest;
      }
    }
  }

  /** The filter keeps non-empty members of its input only. */
  lemma {:induction false} KeepShape(pieces: seq<string>)
    ensures forall s :: s in Keep(pieces) ==> s != [] && s in pieces
  {
    if pieces != [] {
      KeepShape(pieces[1..]);
      assert forall s :: s in pieces[1..] ==> s in pieces;
    }
  }

  lemma {:induction false} TrimsShape(pieces: seq<string>)
    requires forall p :: p in pieces ==> ';' !in p
    ensures forall st :: st in Trims(pieces) ==> ';' !in st && Trimmed(st)
  {
    if pieces != [] {
      assert forall p :: p in pieces[1..] ==> p in pieces;
      TrimsShape(pieces[1..]);
      TrimKeepsChars(pieces[0]);
    }
  }

  /** Joining the pieces of a text with ';' gives back the text. */
  lemma {:induction false} JoinSplit(s: string)
    ensures JoinSemi(Split(s)) == s
  {
    if s != [] {
      var rest := Split(s[1..]);
      JoinSplit(s[1..]);
      if s[0] == ';' {
        assert JoinSemi([[]] + rest) == [] + ";" + JoinSemi(rest);
      } else if |rest| > 1 {
        var ps := [[s[0]] + rest[0]] + rest[1..];
        assert ps[1..] == rest[1..];
        assert JoinSemi(rest) == rest[0] + ";" + JoinSemi(rest[1..]);
      }
    }
  }

  /** A semicolon separates the pieces before it from those after it. */
  lemma {:induction false} SplitConcat(a: string, b: string)
    ensures Split(a + ";" + b) == Split(a) + Split(b)
  {
    if a == [] {
      assert [] + ";" + b == [';'] + b;
      assert ([';'] + b)[1..] == b;
    } else {
      assert (a + ";" + b)[1..] == a[1..] + ";" + b;
      assert (a + ";" + b)[0] == a[0];
      SplitConcat(a[1..], b);
    }
  }

  /** A text without ';' is one piece. */
  lemma {:induction false} SplitFree(s: string)
    requires ';' !in s
    ensures Split(s) == [s]
  {
    if s != [] {
      SplitFree(s[1..]);
      assert [s[0]] + s[1..] == s;
    }
  }

  /** Splitting ';'-free pieces joined with ';' gives the pieces back. */
  lemma {:induction false} SplitJoin(pieces: seq<string>)
    requires pieces != [] && forall p :: p in pieces ==> ';' !in p
    ensures Split(JoinSemi(pieces)) == pieces
  {
    if |pieces| == 1 {
      SplitFree(pieces[0]);
    } else {
      SplitFree(pieces[0]);
      assert forall p :: p in pieces[1..] ==> p in pieces;
      SplitJoin(pieces[1..]);
      SplitConcat(pieces[0], JoinSemi(pieces[1..]));
      assert [pieces[0]] + pieces[1..] == pieces;
    }
  }

  lemma {:induction false} TrimStartSkips(pre: string, rest: string)
    requires AllSpace(pre) && (rest == [] || !IsSpace(rest[0]))
    ensures TrimStart(pre + rest) == rest
  {
    if pre != [] {
      assert (pre + rest)[1..] == pre[1..] + rest;
      TrimStartSkips(pre[1..], rest);
    }
  }

  lemma {:induction false} TrimEndSkips(rest: string, post: string)
    requires AllSpace(post) && (rest == [] || !IsSpace(rest[|rest| - 1]))
    ensures TrimEnd(rest + post) == rest
  {
    if post != [] {
      var n := |post| - 1;
      assert (rest + post)[..|rest + post| - 1] == rest + post[..n];
      TrimEndSkips(rest, post[..n]);
    }
  }

  /** `trim` removes exactly the white space around a trimmed middle. */
  lemma TrimKeepsInner(pre: string, mid: string, post: string)
    requires AllSpace(pre) && AllSpace(post) && Trimmed(mid)
    ensures Trim(pre + mid + post) == mid
  {
    if mid == [] {
      assert pre + mid + post == pre + post;
      assert AllSpace(pre + post);
      TrimStartSkips(pre + post, []);
      assert pre + post + [] == pre + post;
    } else {
      assert pre + mid + post == pre + (mid + post);
      TrimStartSkips(pre, mid + post);
      TrimEndSkips(mid, post);
    }
  }

  /** Filtering distributes over concatenation. */
  lemma {:induction false} KeepConcat(x: seq<string>, y: seq<string>)
    ensures Keep(x + y) == Keep(x) + Keep(y)
  {
    if x == [] {
      assert x + y == y;
    } else {
      assert (x + y)[0] == x[0];
      assert (x + y)[1..] == x[1..] + y;
      KeepConcat(x[1..], y);
      if x[0] != [] {
        assert Keep(x + y) == [x[0]] + Keep(x[1..] + y);
        assert Keep(x) == [x[0]] + Keep(x[1..]);
      }
    }
  }

  /** Filtering keeps a list without empty strings as it is. */
  lemma {:induction false} KeepAll(x: seq<string>)
    requires forall s :: s in x ==> s != []
    ensures Keep(x) == x
  {
    if x != [] {
      assert forall s :: s in x[1..] ==> s in x;
      KeepAll(x[1..]);
      assert x[0] in x;
      assert Keep(x) == [x[0]] + Keep(x[1..]);
      assert x == [x[0]] + x[1..];
    }
  }

  /** Trimming distributes over concatenation. */
  lemma {:induction false} TrimsConcat(x: seq<string>, y: seq<string>)
    ensures Trims(x + y) == Trims(x) + Trims(y)
  {
    if x == [] {
      assert x + y == y;
    } else {
      assert (x + y)[0] == x[0];
      assert (x + y)[1..] == x[1..] + y;
      TrimsConcat(x[1..], y);
    }
  }

  /** Statements keep file order: the statements before a ';' come first. */
  lemma StatementsConcat(a: string, b: string)
    ensures Statements(a + ";" + b) == Statements(a) + Statements(b)
  {
    SplitConcat(a, b);
    TrimsConcat(Split(a), Split(b));
    KeepConcat(Trims(Split(a)), Trims(Split(b)));
  }

  /** A text without ';' yields its trimmed self, if that is not empty. */
  lemma StatementsOfPiece(piece: string)
    requires ';' !in piece
    ensures Statements(piece) == Keep([Trim(piece)])
  {
    SplitFree(piece);
    assert Trims([piece]) == [Trim(piece)] + Trims([]);
  }

  lemma TrimOfTrimmed(s: string)
    requires Trimmed(s)
    ensures Trim(s) == s
  {
    assert TrimStart(s) == s;
  }

  /** Trimming leaves trimmed pieces as they are. */
  lemma {:induction false} TrimsTrimmed(pieces: seq<string>)
    requires forall p :: p in pieces ==> Trimmed(p)
    ensures Trims(pieces) == pieces
  {
    if pieces != [] {
      var head, tail := pieces[0], pieces[1..];
      assert Trims(tail) == tail by {
        assert forall p :: p in tail ==> p in pieces;
        TrimsTrimmed(tail);
      }
      assert Trim(head) == head by {
        assert head in pieces;
        TrimOfTrimmed(head);
      }
      assert pieces == [head] + tail;
    }
  }

  /** A piece of only white space is no statement. */
  lemma BlankIsNoStatement(blank: string)
    requires AllSpace(blank)
    ensures Statements(blank) == []
  {
    assert ';' !in blank by {
      assert !IsSpace(';');
    }
    StatementsOfPiece(blank);
    TrimKeepsInner(blank, [], []);
    assert blank + [] + [] == blank;
    assert Keep([[]]) == [];
  }

  /** Round trip: ';'-free, trimmed, non-empty statements joined with ';' are read back as they were. */
  lemma StatementsOfJoin(statements: seq<string>)
    requires forall st :: st in statements ==> st != [] && ';' !in st && Trimmed(st)
    ensures Statements(JoinSemi(statements)) == statements
  {
    if statements == [] {
      StatementsOfPiece([]);
      assert Keep([[]]) == [];
    } else {
      SplitJoin(statements);
      TrimsTrimmed(statements);
      KeepAll(statements);
    }
  }

  /**
   * The split is naive: any ';' cuts, so "SELECT 'a;b'" is read as the two statements
   * "SELECT 'a" and "b'" — a semicolon inside a string literal or a comment included.
   */
  lemma EverySemicolonCuts(a: string, b: string)
    requires a != [] && ';' !in a && Trimmed(a)
    requires b != [] && ';' !in b && Trimmed(b)
    ensures Statements(a + ";" + b) == [a, b]
  {
    StatementsConcat(a, b);
    OneStatement(a);
    OneStatement(b);
    assert [a] + [b] == [a, b];
  }

  /** A non-empty, trimmed, ';'-free text is one statement. */
  lemma OneStatement(a: string)
    requires a != [] && ';' !in a && Trimmed(a)
    ensures Statements(a) == [a]
  {
    StatementsOfPiece(a);
    TrimOfTrimmed(a);
    assert Keep([a]) == [a] by {
      KeepAll([a]);
    }
  }

  // ------------------------------------------------------------ running them

  /**
   * How many statements run before the first failure, when the statement at
   * each index of `failing` is the one the database rejects.
   */
  function Completed(n: nat, failing: set<nat>, from: nat := 0): (k: nat)
    requires from <= n
    ensures from <= k <= n
    ensures forall j :: from <= j < k ==> j !in failing
    ensures k < n ==> k in failing
    decreases n - from
  {
    if from == n || from in failing then from else Completed(n, failing, from + 1)
  }

  /** Every statement runs exactly when none of them fails. */
  lemma AllCompleted(n: nat, failing: set<nat>)
    ensures Completed(n, failing) == n <==> forall k :: 0 <= k < n ==> k !in failing
  {
  }

  /** The libsql client, seen through the statements it has executed. */
  class Client {
    var executed: seq<string>

    constructor ()
      ensures executed == []
    {
      executed := [];
    }

    /** `client.execute(statement)`; `fails` is the database's verdict. */
    method Execute(statement: string, fails: bool) returns (ok: bool)
      modifies this
      ensures ok == !fails
      ensures executed == if fails then old(executed) else old(executed) + [statement]
    {
      ok := !fails;
      if ok {
        executed := executed + [statement];
      }
    }
  }

  /** The `for` loop of `init`: in order, stopping at the first statement that fails. */
  method Init(client: Client, statements: seq<string>, failing: set<nat>) returns (ok: bool)
    modifies client
    ensures ok <==> Completed(|statements|, failing) == |statements|
    ensures client.executed == old(client.executed) + statements[..Completed(|statements|, failing)]
  {
    var i := 0;
    while i < |statements|
      invariant 0 <= i <= |statements|
      invariant forall j :: 0 <= j < i ==> j !in failing
      invariant client.executed == old(client.executed) + statements[..i]
    {
      var fine := client.Execute(statements[i], i in failing);
      if !fine {
        assert statements[..i + 1][..i] == statements[..i];
        return false;
      }
      assert statements[..i + 1] == statements[..i] + [statements[i]];
      i := i + 1;
    }
    assert statements[..i] == statements;
    return true;
  }

  /** The script's environment: `TURSO_DATABASE_URL` and `TURSO_AUTH_TOKEN`. */
  datatype Env = Env(databaseUrl: Option<string>, authToken: Option<string>)

  /** Set and non-empty: `!url` is false. */
  predicate Given(v: Option<string>) {
    v.Some? && v.value != []
  }

  /**
   * The whole script. `sql` is the schema file's text, None when it cannot be read;
   * the result is the exit code and the statements the database executed.
   */
  method Script(env: Env, sql: Option<string>, failing: set<nat>) returns (exitCode: int, executed: seq<string>)
    ensures exitCode == 0 || exitCode == 1
    ensures !Given(env.databaseUrl) || !Given(env.authToken) || sql.None? ==> exitCode == 1 && executed == []
    ensures exitCode == 0 <==>
      && Given(env.databaseUrl) && Given(env.authToken) && sql.Some?
      && forall k :: 0 <= k < |Statements(sql.value)| ==> k !in failing
    ensures sql.Some? && Given(env.databaseUrl) && Given(env.authToken) ==>
      var statements := Statements(sql.value);
      executed == statements[..Completed(|statements|, failing)]
  {
    if !Given(env.databaseUrl) || !Given(env.authToken) {
      return 1, [];
    }
    var client := new Client();
    if sql.None? {
      return 1, [];
    }
    var statements := Statements(sql.value);
    var ok := Init(client, statements, failing);
    AllCompleted(|statements|, failing);
    exitCode := if ok then 0 else 1;
    executed := client.executed;
  }
}
