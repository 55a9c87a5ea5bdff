/** The database migration script (scripts/run-migration.ts): the SQL file is
    cut into statements at every ';', each piece is trimmed, empty pieces and
    pieces starting with "--" are dropped, and the statements run one after
    the other until the first one the database rejects. The file read and the
    database are inputs: the file content is `None` when it cannot be read,
    and `succeeds` tells whether the database accepts a statement. */
module Migration {
  import opened Wrappers
  import opened Text

  /** The filter of the pipeline: non-empty and not starting with "--". */
  predicate Keep(s: string) {
    |s| > 0 && !StartsWith(s, "--")
  }

  /** `migrationSQL.split(';').map(s => s.trim())` */
  function Pieces(sql: string): (r: seq<string>)
    ensures |r| == |Split(sql, ';')|
  {
    var parts := Split(sql, ';');
    seq(|parts|, k requires 0 <= k < |parts| => Trim(parts[k]))
  }

  /** `.filter(s => s.length > 0 && !s.startsWith('--'))` */
  function KeepAll(pieces: seq<string>): (r: seq<string>)
    ensures |r| <= |pieces|
    ensures forall k :: 0 <= k < |r| ==> Keep(r[k])
  {
    if |pieces| == 0 then []
    else if Keep(pieces[0]) then [pieces[0]] + KeepAll(pieces[1..])
    else KeepAll(pieces[1..])
  }

  /** The statements the script executes, in order. */
  function Statements(sql: string): seq<string> {
    KeepAll(Pieces(sql))
  }

  /** Adding one to every position. */
  function Shift(idx: seq<nat>): (r: seq<nat>)
    ensures |r| == |idx|
    ensures forall k :: 0 <= k < |r| ==> r[k] == idx[k] + 1
  {
    seq(|idx|, k requires 0 <= k < |idx| => idx[k] + 1)
  }

  /** The positions of the kept pieces, in increasing order. */
  predicate SelectsKept(pieces: seq<string>, kept: seq<string>, idx: seq<nat>) {
    && |idx| == |kept|
    && (forall k :: 0 <= k < |idx| ==> idx[k] < |pieces| && kept[k] == pieces[idx[k]])
    && (forall k, l :: 0 <= k < l < |idx| ==> idx[k] < idx[l])
    && (forall j :: 0 <= j < |pieces| && Keep(pieces[j]) ==> j in idx)
  }

  /** The positions among `pieces[1..]` become positions among `pieces`. */
  lemma ShiftSelects(pieces: seq<string>, kept: seq<string>, idx: seq<nat>)
    requires |pieces| > 0 && SelectsKept(pieces[1..], kept, idx)
    ensures var shifted := Shift(idx);
      && (forall k :: 0 <= k < |shifted| ==> 0 < shifted[k] < |pieces| && kept[k] == pieces[shifted[k]])
      && (forall k, l :: 0 <= k < l < |shifted| ==> shifted[k] < shifted[l])
      && (forall j :: 1 <= j < |pieces| && Keep(pieces[j]) ==> j in shifted)
  {
    var shifted := Shift(idx);
    forall j | 1 <= j < |pieces| && Keep(pieces[j])
      ensures j in shifted
    {
      assert pieces[1..][j - 1] == pieces[j];
      var k :| 0 <= k < |idx| && idx[k] == j - 1;
      assert shifted[k] == j;
    }
  }

  /** A kept first piece goes in front, at position 0. */
  lemma PrependSelects(pieces: seq<string>, kept: seq<string>, shifted: seq<nat>)
    requires |pieces| > 0 && Keep(pieces[0]) && |shifted| == |kept|
    requires forall k :: 0 <= k < |shifted| ==> 0 < shifted[k] < |pieces| && kept[k] == pieces[shifted[k]]
    requires forall k, l :: 0 <= k < l < |shifted| ==> shifted[k] < shifted[l]
    requires forall j :: 1 <= j < |pieces| && Keep(pieces[j]) ==> j in shifted
    ensures SelectsKept(pieces, [pieces[0]] + kept, [0] + shifted)
  {
    var idx := [0] + shifted;
    forall j | 0 <= j < |pieces| && Keep(pieces[j])
      ensures j in idx
    {
      if j > 0 {
        assert j in shifted;
      }
    }
  }

  /** `KeepAll` is exactly the order-preserving selection of the kept pieces:
      `idx` gives, for each result, its position among the pieces; the
      positions strictly increase and cover every kept piece. */
  lemma {:induction false} KeepAllSelects(pieces: seq<string>) returns (idx: seq<nat>)
    ensures SelectsKept(pieces, KeepAll(pieces), idx)
    decreases |pieces|
  {
    if |pieces| == 0 {
      idx := [];
    } else {
      var rest := KeepAllSelects(pieces[1..]);
      ShiftSelects(pieces, KeepAll(pieces[1..]), rest);
      var shifted := Shift(rest);
      if Keep(pieces[0]) {
        idx := [0] + shifted;
        PrependSelects(pieces, KeepAll(pieces[1..]), shifted);
      } else {
        idx := shifted;
        assert KeepAll(pieces) == KeepAll(pieces[1..]);
      }
    }
  }

  /** What every executed statement looks like: it contains no ';', has no
      leading or trailing whitespace, is not empty and does not start with
      "--"; and it is a trimmed piece of the file. */
  lemma StatementsShape(sql: string)
    ensures forall k :: 0 <= k < |Statements(sql)| ==>
      var s := Statements(sql)[k];
      ';' !in s && Keep(s) && !IsSpace(s[0]) && !IsSpace(s[|s| - 1])
  {
    var parts := Split(sql, ';');
    var pieces := Pieces(sql);
    SplitPiecesWithoutSeparator(sql, ';');
    forall j | 0 <= j < |pieces|
      ensures ';' !in pieces[j]
      ensures |pieces[j]| > 0 ==> !IsSpace(pieces[j][0]) && !IsSpace(pieces[j][|pieces[j]| - 1])
    {
      TrimProperties(parts[j]);
      var a, b :| 0 <= a <= b <= |parts[j]| && Trim(parts[j]) == parts[j][a..b];
      assert ';' !in parts[j];
      forall i | 0 <= i < |pieces[j]|
        ensures pieces[j][i] != ';'
      {
        assert pieces[j][i] == parts[j][a + i];
      }
    }
    var idx := KeepAllSelects(pieces);
  }

  /** The statements are the kept pieces of the file, in file order. */
  lemma StatementsInFileOrder(sql: string) returns (idx: seq<nat>)
    ensures SelectsKept(Pieces(sql), Statements(sql), idx)
    ensures forall j :: 0 <= j < |Pieces(sql)| ==> Pieces(sql)[j] == Trim(Split(sql, ';')[j])
  {
    idx := KeepAllSelects(Pieces(sql));
  }

  /** A file without ';' is a single piece. */
  lemma {:induction false} SplitWithoutSeparator(s: string)
    requires ';' !in s
    ensures Split(s, ';') == [s]
    decreases |s|
  {
    if |s| > 0 {
      assert ';' !in s[1..];
      SplitWithoutSeparator(s[1..]);
      assert [s[0]] + s[1..] == s;
    }
  }

  /** A statement whose first line is a comment is dropped whole, whatever
      SQL follows on its later lines: the filter looks only at how the
      trimmed piece begins. */
  lemma CommentFirstLineDropsStatement(statement: string)
    requires ';' !in statement && StartsWith(Trim(statement), "--")
    ensures Statements(statement) == []
  {
    SplitWithoutSeparator(statement);
    assert Pieces(statement) == [Trim(statement)];
  }

  /** How the execution loop ended. */
  datatype Outcome = Completed | Failed(index: nat)

  /** The `for` loop over the statements: each is sent in turn; the first
      one the database rejects is rethrown and nothing after it is sent. */
  method RunStatements(statements: seq<string>, succeeds: string -> bool)
    returns (sent: seq<string>, outcome: Outcome)
    ensures outcome == Completed <==> forall k :: 0 <= k < |statements| ==> succeeds(statements[k])
    ensures outcome == Completed ==> sent == statements
    ensures outcome.Failed? ==>
      outcome.index < |statements| && sent == statements[..outcome.index + 1]
      && !succeeds(statements[outcome.index])
      && forall k :: 0 <= k < outcome.index ==> succeeds(statements[k])
  {
    sent := [];
    var i := 0;
    while i < |statements|
      invariant 0 <= i <= |statements|
      invariant sent == statements[..i]
      invariant forall k :: 0 <= k < i ==> succeeds(statements[k])
    {
      var statement := statements[i];
      sent := sent + [statement];
      if !succeeds(statement) {
        outcome := Failed(i);
        return;
      }
      i := i + 1;
    }
    assert statements[..i] == statements;
    outcome := Completed;
  }

  /** `runMigration`: exit code 0 when the file was read and every statement
      succeeded, 1 otherwise (an unreadable file sends nothing). */
  method RunMigration(file: Option<string>, succeeds: string -> bool)
    returns (sent: seq<string>, exitCode: int)
    ensures exitCode == 0 || exitCode == 1
    ensures exitCode == 0 <==>
      file.Some? && forall k :: 0 <= k < |Statements(file.value)| ==> succeeds(Statements(file.value)[k])
    ensures file.None? ==> sent == []
    ensures file.Some? ==> sent <= Statements(file.value)
    ensures exitCode == 0 ==> sent == Statements(file.value)
  {
    if file.None? {
      return [], 1;
    }
    var statements := Statements(file.value);
    var outcome;
    sent, outcome := RunStatements(statements, succeeds);
    exitCode := if outcome == Completed then 0 else 1;
  }
}
