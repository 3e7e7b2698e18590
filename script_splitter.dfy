/**
 * Loading the legacy dump: the script is read character by character and cut
 * into statements at every ';'. Each statement is handed to the scratch
 * database; a statement it rejects is logged and the loop goes on.
 */
module ScriptSplitter {

  /** The statements a script terminates: the text before each ';', in order. */
  function Statements(script: string): seq<string> {
    if script == [] then []
    else
      var front := script[..|script| - 1];
      if script[|script| - 1] == ';' then Statements(front) + [Trailing(front)] else Statements(front)
  }

  /** The text after the last ';' (all of the script when it has none). */
  function Trailing(script: string): string {
    if script == [] then []
    else
      var front := script[..|script| - 1];
      if script[|script| - 1] == ';' then [] else Trailing(front) + [script[|script| - 1]]
  }

  /** Each statement followed by the ';' that ended it. */
  function Terminated(stmts: seq<string>): string {
    if stmts == [] then [] else Terminated(stmts[..|stmts| - 1]) + stmts[|stmts| - 1] + ";"
  }

  /** How often `c` occurs in `s`. */
  function Count(s: string, c: char): nat {
    if s == [] then 0 else Count(s[..|s| - 1], c) + (if s[|s| - 1] == c then 1 else 0)
  }

  /** Statements and trailing text without ';'. */
  ghost predicate SemicolonFree(stmts: seq<string>, trailing: string) {
    (forall i :: 0 <= i < |stmts| ==> ';' !in stmts[i]) && ';' !in trailing
  }

  /** The trailing text never contains ';'. */
  lemma {:induction false} TrailingHasNoSemicolon(script: string)
    ensures ';' !in Trailing(script)
  {
    if script != [] && script[|script| - 1] != ';' {
      TrailingHasNoSemicolon(script[..|script| - 1]);
    }
  }

  /** No statement contains ';'. */
  lemma {:induction false} StatementsHaveNoSemicolon(script: string)
    ensures forall i :: 0 <= i < |Statements(script)| ==> ';' !in Statements(script)[i]
  {
    if script != [] {
      var front := script[..|script| - 1];
      StatementsHaveNoSemicolon(front);
      TrailingHasNoSemicolon(front);
    }
  }

  /** The script is exactly its statements, each with its ';', followed by the trailing text. */
  lemma {:induction false} StatementsRebuild(script: string)
    ensures Terminated(Statements(script)) + Trailing(script) == script
  {
    if script != [] {
      var front, last := script[..|script| - 1], script[|script| - 1];
      StatementsRebuild(front);
      assert front + [last] == script;
      if last == ';' {
        var stmts := Statements(front) + [Trailing(front)];
        assert stmts[..|stmts| - 1] == Statements(front);
      } else {
        calc {
          Terminated(Statements(script)) + Trailing(script);
          Terminated(Statements(front)) + (Trailing(front) + [last]);
          (Terminated(Statements(front)) + Trailing(front)) + [last];
        }
      }
    }
  }

  /** There are exactly as many statements as ';' characters in the script. */
  lemma {:induction false} StatementsCount(script: string)
    ensures |Statements(script)| == Count(script, ';')
  {
    if script != [] {
      StatementsCount(script[..|script| - 1]);
    }
  }

  /**
   * The split is the only one: whenever the script is some ';'-free
   * statements, each with its ';', followed by ';'-free trailing text, those
   * are its statements and its trailing text.
   */
  lemma {:induction false} SplitUnique(script: string, stmts: seq<string>, trailing: string)
    requires SemicolonFree(stmts, trailing)
    requires Terminated(stmts) + trailing == script
    ensures Statements(script) == stmts && Trailing(script) == trailing
    decreases |script|
  {
    if trailing != [] {
      var last, shorter := trailing[|trailing| - 1], trailing[..|trailing| - 1];
      assert trailing == shorter + [last];
      assert script == (Terminated(stmts) + shorter) + [last];
      assert last in trailing;
      assert forall x :: x in shorter ==> x in trailing;
      SplitUnique(script[..|script| - 1], stmts, shorter);
    } else if stmts != [] {
      var init, st := stmts[..|stmts| - 1], stmts[|stmts| - 1];
      assert script == (Terminated(init) + st) + [';'];
      assert SemicolonFree(init, st);
      SplitUnique(script[..|script| - 1], init, st);
      assert stmts == init + [st];
    }
  }

  /** A ';'-free statement, its ';' and the rest: the statement comes first, then those of the rest. */
  lemma StatementsAfterSegment(segment: string, rest: string)
    requires ';' !in segment
    ensures Statements(segment + ";" + rest) == [segment] + Statements(rest)
    ensures Trailing(segment + ";" + rest) == Trailing(rest)
  {
    var stmts := [segment] + Statements(rest);
    StatementsRebuild(rest);
    StatementsHaveNoSemicolon(rest);
    TrailingHasNoSemicolon(rest);
    TerminatedPrepend(segment, Statements(rest));
    assert SemicolonFree(stmts, Trailing(rest)) by {
      forall i | 0 <= i < |stmts| ensures ';' !in stmts[i] {
        if i > 0 {
          assert stmts[i] == Statements(rest)[i - 1];
        }
      }
    }
    assert (segment + ";" + Terminated(Statements(rest))) + Trailing(rest) == segment + ";" + rest;
    SplitUnique(segment + ";" + rest, stmts, Trailing(rest));
  }

  lemma {:induction false} TerminatedPrepend(segment: string, stmts: seq<string>)
    ensures Terminated([segment] + stmts) == segment + ";" + Terminated(stmts)
    decreases |stmts|
  {
    if stmts != [] {
      var init, st := stmts[..|stmts| - 1], stmts[|stmts| - 1];
      assert ([segment] + stmts)[..|stmts|] == [segment] + init;
      TerminatedPrepend(segment, init);
    } else {
      assert [segment] + stmts == [segment];
      assert [segment][..0] == [];
    }
  }

  /**
   * The statements among `stmts` that the database rejected, in order. The
   * database judges each statement in the state the statements before it
   * left behind, so its verdict is given those statements too.
   */
  function Rejected(stmts: seq<string>, accepts: (seq<string>, string) -> bool): seq<string> {
    if stmts == [] then []
    else
      var init, last := stmts[..|stmts| - 1], stmts[|stmts| - 1];
      Rejected(init, accepts) + (if accepts(init, last) then [] else [last])
  }

  /** The failure log holds only executed statements, never more of them than were executed. */
  lemma {:induction false} RejectedAreExecuted(stmts: seq<string>, accepts: (seq<string>, string) -> bool)
    ensures |Rejected(stmts, accepts)| <= |stmts|
    ensures forall x :: x in Rejected(stmts, accepts) ==> x in stmts
  {
    if stmts != [] {
      var init := stmts[..|stmts| - 1];
      RejectedAreExecuted(init, accepts);
      assert forall x :: x in init ==> x in stmts;
    }
  }

  /** Reading one more character: a ';' closes the statement, any other character joins it. */
  lemma ReadStep(script: string, i: nat)
    requires i < |script|
    ensures script[i] == ';' ==>
      Statements(script[..i + 1]) == Statements(script[..i]) + [Trailing(script[..i])] &&
      Trailing(script[..i + 1]) == []
    ensures script[i] != ';' ==>
      Statements(script[..i + 1]) == Statements(script[..i]) &&
      Trailing(script[..i + 1]) == Trailing(script[..i]) + [script[i]]
  {
    assert script[..i + 1][..i] == script[..i];
  }

  /** Logging a rejected statement keeps the log equal to the rejected statements so far. */
  lemma RejectedStep(stmts: seq<string>, st: string, accepts: (seq<string>, string) -> bool)
    ensures Rejected(stmts + [st], accepts) == Rejected(stmts, accepts) + (if accepts(stmts, st) then [] else [st])
  {
    assert (stmts + [st])[..|stmts|] == stmts;
  }

  /**
   * Reads the script and executes every statement it terminates, whatever
   * became of the earlier ones. `accepts(before, statement)` is the scratch
   * database's verdict on `statement` once the statements `before` have been
   * executed; a rejected statement is only logged.
   */
  method ParseLegacySqlScript(script: string, accepts: (seq<string>, string) -> bool)
    returns (executed: seq<string>, failed: seq<string>)
    ensures executed == Statements(script)
    ensures failed == Rejected(executed, accepts)
  {
    var statement := [];
    executed, failed := [], [];
    var i := 0;
    while i < |script|
      invariant 0 <= i <= |script|
      invariant executed == Statements(script[..i]) && statement == Trailing(script[..i])
      invariant failed == Rejected(executed, accepts)
    {
      var ch := script[i];
      ReadStep(script, i);
      if ch == ';' {
        RejectedStep(executed, statement, accepts);
        if !accepts(executed, statement) {
          failed := failed + [statement];
        }
        executed := executed + [statement];
        statement := [];
      } else {
        statement := statement + [ch];
      }
      i := i + 1;
    }
    assert script[..i] == script;
  }
}
