/**
 * The table of syntax error messages (SyntaxAnalyzer/SyntaxMessages.cs): messages keyed by a
 * non-terminal and a terminal, with `:any` standing for every terminal of a non-terminal, or for
 * every non-terminal, and a default message. The JSON document is given as its default message and
 * its list of entries.
 */
module SyntaxMessageTable {
  import opened Wrappers

  /** The reserved name that matches any terminal, or any non-terminal. */
  const AnyName: string := ":any"

  /** One element of `error_messages`. */
  datatype Entry = Entry(nonTerminal: string, terminal: string, message: string)

  /** `_errorMessages`: non-terminal, then terminal, to message. */
  type Messages = map<string, map<string, string>>

  /** There is a message for exactly this pair. */
  predicate Has(m: Messages, nonTerminal: string, terminal: string)
  {
    nonTerminal in m && terminal in m[nonTerminal]
  }

  function DuplicateMessage(nonTerminal: string, terminal: string): string
  {
    "Message with non-terminal: " + nonTerminal + " and terminal: " + terminal + " is defined multiple times"
  }

  /**
   * The lookup of GetErrorMessage (SyntaxAnalyzer/SyntaxMessages.cs:25-46): the exact pair, else the
   * non-terminal's `:any` message; the global `:any` row only for a non-terminal with no row of its
   * own; the default otherwise.
   */
  function Lookup(m: Messages, defaultMessage: string, nonTerminal: string, terminal: string): (r: string)
    ensures Has(m, nonTerminal, terminal) ==> r == m[nonTerminal][terminal]
    ensures nonTerminal in m && !Has(m, nonTerminal, terminal) && Has(m, nonTerminal, AnyName)
            ==> r == m[nonTerminal][AnyName]
    ensures nonTerminal in m && !Has(m, nonTerminal, terminal) && !Has(m, nonTerminal, AnyName)
            ==> r == defaultMessage
    ensures nonTerminal !in m && Has(m, AnyName, terminal) ==> r == m[AnyName][terminal]
    ensures nonTerminal !in m && !Has(m, AnyName, terminal) ==> r == defaultMessage
  {
    if nonTerminal in m then
      if terminal in m[nonTerminal] then m[nonTerminal][terminal]
      else if AnyName in m[nonTerminal] then m[nonTerminal][AnyName]
      else defaultMessage
    else if AnyName in m && terminal in m[AnyName] then m[AnyName][terminal]
    else defaultMessage
  }

  /** One turn of the loop of LoadMessages (SyntaxAnalyzer/SyntaxMessages.cs:58-73). */
  function Insert(m: Messages, e: Entry): (r: Result<Messages>)
  {
    if Has(m, e.nonTerminal, e.terminal) then Err(DuplicateMessage(e.nonTerminal, e.terminal))
    else Ok(m[e.nonTerminal := (if e.nonTerminal in m then m[e.nonTerminal] else map[])[e.terminal := e.message]])
  }

  /** Where loading stops: the table so far, and the exception, if one was thrown. */
  datatype Loaded = Loaded(messages: Messages, error: Option<string>)

  /** The loop of LoadMessages (SyntaxAnalyzer/SyntaxMessages.cs:54-74): entries in order up to the first duplicate. */
  function Load(m: Messages, entries: seq<Entry>): Loaded
    decreases |entries|
  {
    if entries == [] then Loaded(m, None)
    else
      var r := Insert(m, entries[0]);
      if r.Err? then Loaded(m, Some(r.msg)) else Load(r.value, entries[1..])
  }

  /** Some entry names the pair. */
  ghost predicate Names(entries: seq<Entry>, nonTerminal: string, terminal: string)
  {
    exists i :: 0 <= i < |entries| && entries[i].nonTerminal == nonTerminal && entries[i].terminal == terminal
  }

  /** Some entry is about the non-terminal. */
  ghost predicate Mentions(entries: seq<Entry>, nonTerminal: string)
  {
    exists i :: 0 <= i < |entries| && entries[i].nonTerminal == nonTerminal
  }

  /** No two entries name the same pair, and the table holds none of them yet. */
  predicate Fresh(m: Messages, entries: seq<Entry>)
  {
    && (forall i :: 0 <= i < |entries| ==> !Has(m, entries[i].nonTerminal, entries[i].terminal))
    && (forall i, j :: 0 <= i < j < |entries| ==>
          (entries[i].nonTerminal, entries[i].terminal) != (entries[j].nonTerminal, entries[j].terminal))
  }

  /** Inserting a new pair adds exactly it and keeps every other message. */
  lemma InsertFacts(m: Messages, e: Entry)
    ensures Insert(m, e).Err? <==> Has(m, e.nonTerminal, e.terminal)
    ensures Insert(m, e).Ok? ==>
      var r := Insert(m, e).value;
      && Has(r, e.nonTerminal, e.terminal) && r[e.nonTerminal][e.terminal] == e.message
      && r.Keys == m.Keys + {e.nonTerminal}
      && (forall nt, t :: Has(r, nt, t) <==> Has(m, nt, t) || (nt, t) == (e.nonTerminal, e.terminal))
      && (forall nt, t :: Has(m, nt, t) ==> r[nt][t] == m[nt][t])
  {
  }

  /** After a fresh first entry, the rest are fresh for the new table exactly when all were for the old. */
  lemma FreshStep(m: Messages, entries: seq<Entry>)
    requires entries != [] && Insert(m, entries[0]).Ok?
    ensures Fresh(m, entries) <==> Fresh(Insert(m, entries[0]).value, entries[1..])
  {
    InsertFacts(m, entries[0]);
    assert forall i :: 1 <= i < |entries| ==> entries[i] == entries[1..][i - 1];
  }

  /** Loading succeeds exactly when no pair is defined twice, in the entries or against the table. */
  lemma {:induction false} LoadOk(m: Messages, entries: seq<Entry>)
    ensures Load(m, entries).error.None? <==> Fresh(m, entries)
    decreases |entries|
  {
    if entries != [] {
      InsertFacts(m, entries[0]);
      if Insert(m, entries[0]).Ok? {
        LoadOk(Insert(m, entries[0]).value, entries[1..]);
        FreshStep(m, entries);
      }
    }
  }

  /**
   * After a successful load the table holds every earlier message unchanged and every entry's
   * message under its pair, and nothing else.
   */
  lemma {:induction false} LoadContents(m: Messages, entries: seq<Entry>)
    requires Load(m, entries).error.None?
    ensures var r := Load(m, entries).messages;
      && (forall nt, t :: Has(r, nt, t) <==> Has(m, nt, t) || Names(entries, nt, t))
      && (forall nt, t :: Has(m, nt, t) ==> r[nt][t] == m[nt][t])
      && (forall i :: 0 <= i < |entries| ==>
            Has(r, entries[i].nonTerminal, entries[i].terminal)
            && r[entries[i].nonTerminal][entries[i].terminal] == entries[i].message)
      && (forall nt :: nt in r ==> nt in m || Mentions(entries, nt))
    decreases |entries|
  {
    if entries != [] {
      var e := entries[0];
      var rest := entries[1..];
      InsertFacts(m, e);
      var m1 := Insert(m, e).value;
      LoadContents(m1, rest);
      assert forall i :: 1 <= i < |entries| ==> entries[i] == rest[i - 1];
      forall nt, t
        ensures Names(entries, nt, t) <==> (nt, t) == (e.nonTerminal, e.terminal) || Names(rest, nt, t)
      {
        if Names(rest, nt, t) {
          var i :| 0 <= i < |rest| && rest[i].nonTerminal == nt && rest[i].terminal == t;
          assert entries[i + 1] == rest[i];
        }
        if Names(entries, nt, t) && (nt, t) != (e.nonTerminal, e.terminal) {
          var i :| 0 <= i < |entries| && entries[i].nonTerminal == nt && entries[i].terminal == t;
          assert rest[i - 1] == entries[i];
        }
        if (nt, t) == (e.nonTerminal, e.terminal) {
          assert entries[0].nonTerminal == nt && entries[0].terminal == t;
        }
      }
      forall nt | Mentions(rest, nt)
        ensures Mentions(entries, nt)
      {
        var i :| 0 <= i < |rest| && rest[i].nonTerminal == nt;
        assert entries[i + 1] == rest[i];
      }
      assert Mentions(entries, e.nonTerminal) by {
        assert entries[0].nonTerminal == e.nonTerminal;
      }
    }
  }

  /** A pair defined twice makes loading throw the duplicate message. */
  lemma DuplicateFails(m: Messages, a: Entry, b: Entry)
    requires (a.nonTerminal, a.terminal) == (b.nonTerminal, b.terminal)
    ensures Load(m, [a, b]).error == Some(DuplicateMessage(a.nonTerminal, a.terminal))
  {
    InsertFacts(m, a);
    if Insert(m, a).Ok? {
      InsertFacts(Insert(m, a).value, b);
      assert [a, b][1..] == [b];
    }
  }

  /** After a successful load into an empty table, an entry's pair gives that entry's message. */
  lemma LoadedExact(defaultMessage: string, entries: seq<Entry>, i: nat)
    requires Load(map[], entries).error.None? && i < |entries|
    ensures Lookup(Load(map[], entries).messages, defaultMessage, entries[i].nonTerminal, entries[i].terminal)
            == entries[i].message
  {
    LoadContents(map[], entries);
  }

  /**
   * After a successful load into an empty table, a pair no entry names whose non-terminal has
   * entries gets that non-terminal's `:any` message, or the default; the global `:any` row is not
   * consulted.
   */
  lemma LoadedRowFallback(defaultMessage: string, entries: seq<Entry>, nonTerminal: string, terminal: string)
    requires Load(map[], entries).error.None?
    requires !Names(entries, nonTerminal, terminal) && Mentions(entries, nonTerminal)
    ensures var r := Load(map[], entries).messages;
      && (forall i :: 0 <= i < |entries| && entries[i].nonTerminal == nonTerminal && entries[i].terminal == AnyName
            ==> Lookup(r, defaultMessage, nonTerminal, terminal) == entries[i].message)
      && (!Names(entries, nonTerminal, AnyName) ==> Lookup(r, defaultMessage, nonTerminal, terminal) == defaultMessage)
  {
    LoadContents(map[], entries);
    var r := Load(map[], entries).messages;
    var i :| 0 <= i < |entries| && entries[i].nonTerminal == nonTerminal;
    assert Has(r, nonTerminal, entries[i].terminal);
    if !Names(entries, nonTerminal, AnyName) {
      assert !Has(r, nonTerminal, AnyName);
    }
  }

  /**
   * After a successful load into an empty table, a non-terminal no entry is about gets the global
   * `:any` message of the terminal, or the default.
   */
  lemma LoadedGlobalFallback(defaultMessage: string, entries: seq<Entry>, nonTerminal: string, terminal: string)
    requires Load(map[], entries).error.None? && !Mentions(entries, nonTerminal)
    ensures var r := Load(map[], entries).messages;
      && (forall i :: 0 <= i < |entries| && entries[i].nonTerminal == AnyName && entries[i].terminal == terminal
            ==> Lookup(r, defaultMessage, nonTerminal, terminal) == entries[i].message)
      && (!Names(entries, AnyName, terminal) ==> Lookup(r, defaultMessage, nonTerminal, terminal) == defaultMessage)
  {
    LoadContents(map[], entries);
    var r := Load(map[], entries).messages;
    assert nonTerminal !in r;
    if !Names(entries, AnyName, terminal) {
      assert !Has(r, AnyName, terminal);
    }
  }

  /** SyntaxMessages (SyntaxAnalyzer/SyntaxMessages.cs:5-17). */
  class SyntaxMessages {
    var errorMessages: Messages
    /** `_defaultMessage`, empty until a document is loaded. */
    var defaultMessage: string

    constructor ()
      ensures errorMessages == map[] && defaultMessage == ""
    {
      errorMessages := map[];
      defaultMessage := "";
    }

    /** GetErrorMessage (SyntaxAnalyzer/SyntaxMessages.cs:25-46): Lookup on the fields. */
    function GetErrorMessage(nonTerminal: string, terminal: string): string
      reads this
    {
      Lookup(errorMessages, defaultMessage, nonTerminal, terminal)
    }

    /**
     * LoadMessages (SyntaxAnalyzer/SyntaxMessages.cs:48-75): the default message, then the entries in
     * order; a duplicate throws and leaves the entries before it in place.
     */
    method LoadMessages(defaultText: string, entries: seq<Entry>) returns (r: Outcome)
      modifies this
      ensures defaultMessage == defaultText
      ensures var l := Load(old(errorMessages), entries);
        && errorMessages == l.messages
        && r == (if l.error.None? then Pass else Fail(l.error.value))
    {
      defaultMessage := defaultText;
      ghost var m0 := errorMessages;
      for i := 0 to |entries|
        invariant Load(m0, entries) == Load(errorMessages, entries[i..])
        invariant defaultMessage == defaultText
      {
        assert entries[i..][1..] == entries[i + 1..];
        var e := entries[i];
        ghost var m := errorMessages;
        if e.nonTerminal in errorMessages && e.terminal in errorMessages[e.nonTerminal] {
          return Fail(DuplicateMessage(e.nonTerminal, e.terminal));
        }
        if e.nonTerminal !in errorMessages {
          errorMessages := errorMessages[e.nonTerminal := map[]];
        }
        errorMessages := errorMessages[e.nonTerminal := errorMessages[e.nonTerminal][e.terminal := e.message]];
        assert errorMessages == Insert(m, e).value;
      }
      return Pass;
    }
  }
}
