/**
 * The scope chain of the semantic analyzer (SemanticAnalyzer/Context.cs). A frame holds the names
 * used in it and the types of some of them; a Context is a frame with a link to the enclosing one.
 * The chain is also described as a value, a sequence of frames with the innermost first, on which
 * the analyzer is specified.
 */
module Contexts {
  import opened Wrappers

  /** `_usedWords` and `_wordTypes` of one frame. */
  datatype Frame = Frame(used: set<string>, types: map<string, string>)

  const EmptyFrame: Frame := Frame({}, map[])

  /** CheckWord on a chain value: `w` is used in some frame. */
  predicate Sees(fs: seq<Frame>, w: string)
    ensures Sees(fs, w) <==> exists k :: 0 <= k < |fs| && w in fs[k].used
    decreases |fs|
  {
    |fs| > 0 && (w in fs[0].used || Sees(fs[1..], w))
  }

  /** WordHasType on a chain value: some frame gives `w` a type. */
  predicate Typed(fs: seq<Frame>, w: string)
    ensures Typed(fs, w) <==> exists k :: 0 <= k < |fs| && w in fs[k].types
    decreases |fs|
  {
    |fs| > 0 && (w in fs[0].types || Typed(fs[1..], w))
  }

  /** GetWordType on a chain value: the type the innermost frame binding `w` gives it. */
  function TypeIn(fs: seq<Frame>, w: string): (t: string)
    requires Typed(fs, w)
    ensures exists k :: 0 <= k < |fs| && w in fs[k].types && t == fs[k].types[w]
                        && forall k' :: 0 <= k' < k ==> w !in fs[k'].types
    decreases |fs|
  {
    if w in fs[0].types then fs[0].types[w]
    else
      var t := TypeIn(fs[1..], w);
      var k :| 0 <= k < |fs| - 1 && w in fs[1..][k].types && t == fs[1..][k].types[w]
               && forall k' :: 0 <= k' < k ==> w !in fs[1..][k'].types;
      assert w in fs[k + 1].types && t == fs[k + 1].types[w];
      t
  }

  /** Every frame types only names it uses, which SetWordType keeps. */
  predicate FramesOk(fs: seq<Frame>)
  {
    forall k :: 0 <= k < |fs| ==> fs[k].types.Keys <= fs[k].used
  }

  /** Under the frame invariant a name used nowhere is typed nowhere. */
  lemma UnseenUntyped(fs: seq<Frame>, w: string)
    requires FramesOk(fs) && !Sees(fs, w)
    ensures !Typed(fs, w)
  {
    forall k | 0 <= k < |fs|
      ensures w !in fs[k].types
    {
      assert w !in fs[k].used;
    }
  }

  /** Pushing an empty frame keeps the frame invariant. */
  lemma PushOk(fs: seq<Frame>)
    requires FramesOk(fs)
    ensures FramesOk([EmptyFrame] + fs)
  {
    assert forall k :: 1 <= k < |fs| + 1 ==> ([EmptyFrame] + fs)[k] == fs[k - 1];
  }

  function ReservedMessage(w: string): string
  {
    "Word " + w + " was already reserved"
  }

  /** ReserveWord on a chain value: fails on a name typed anywhere, else adds it to the innermost frame. */
  function Reserve(fs: seq<Frame>, w: string): (r: Result<seq<Frame>>)
    requires |fs| > 0
    ensures r.Err? <==> Typed(fs, w)
    ensures r.Err? ==> r.msg == ReservedMessage(w)
    ensures r.Ok? ==> |r.value| == |fs| && r.value[1..] == fs[1..]
                      && r.value[0] == Frame(fs[0].used + {w}, fs[0].types)
  {
    if Typed(fs, w) then Err(ReservedMessage(w))
    else Ok([Frame(fs[0].used + {w}, fs[0].types)] + fs[1..])
  }

  /** SetWordType on a chain value: ReserveWord, then the type in the innermost frame. */
  function SetType(fs: seq<Frame>, w: string, t: string): (r: Result<seq<Frame>>)
    requires |fs| > 0
    ensures r.Err? <==> Typed(fs, w)
    ensures r.Err? ==> r.msg == ReservedMessage(w)
    ensures r.Ok? ==> |r.value| == |fs| && r.value[1..] == fs[1..]
                      && r.value[0] == Frame(fs[0].used + {w}, fs[0].types[w := t])
  {
    match Reserve(fs, w)
    case Err(m) => Err(m)
    case Ok(gs) => Ok([Frame(gs[0].used, gs[0].types[w := t])] + gs[1..])
  }

  /** Re-reserving a name that is still untyped changes nothing more. */
  lemma ReserveIdempotent(fs: seq<Frame>, w: string)
    requires |fs| > 0 && Reserve(fs, w).Ok?
    ensures Reserve(Reserve(fs, w).value, w) == Reserve(fs, w)
  {
    var gs := Reserve(fs, w).value;
    assert forall k :: 1 <= k < |gs| ==> gs[k] == gs[1..][k - 1] == fs[k];
    assert gs[0].used + {w} == gs[0].used;
    assert [gs[0]] + gs[1..] == gs;
  }

  /**
   * After SetWordType the name is used, typed and has that type, and setting it again, from this
   * frame or from any chain of frames nested inside it, fails.
   */
  lemma SetTypeFacts(fs: seq<Frame>, w: string, t: string, inner: seq<Frame>, t': string)
    requires |fs| > 0 && SetType(fs, w, t).Ok?
    ensures var gs := SetType(fs, w, t).value;
      && Sees(gs, w) && Typed(gs, w) && TypeIn(gs, w) == t
      && SetType(inner + gs, w, t').Err?
  {
    var gs := SetType(fs, w, t).value;
    assert w in gs[0].used && w in gs[0].types;
    var hs := inner + gs;
    assert hs[|inner|] == gs[0];
  }

  /** Reserving and setting keep the frame invariant. */
  lemma SetTypeOk(fs: seq<Frame>, w: string, t: string)
    requires |fs| > 0 && FramesOk(fs)
    ensures Reserve(fs, w).Ok? ==> FramesOk(Reserve(fs, w).value)
    ensures SetType(fs, w, t).Ok? ==> FramesOk(SetType(fs, w, t).value)
  {
    if Reserve(fs, w).Ok? {
      var gs := Reserve(fs, w).value;
      assert forall k :: 1 <= k < |gs| ==> gs[k] == gs[1..][k - 1];
    }
    if SetType(fs, w, t).Ok? {
      var gs := SetType(fs, w, t).value;
      assert forall k :: 1 <= k < |gs| ==> gs[k] == gs[1..][k - 1];
    }
  }

  /** Context: a frame whose `outer` link is fixed when it is made. */
  class Context {
    const outer: Context?
    /** The enclosing frames. */
    ghost const Repr: set<Context>
    var usedWords: set<string>
    var wordTypes: map<string, string>

    ghost predicate Valid()
      reads this, Repr
      decreases Repr
    {
      && wordTypes.Keys <= usedWords
      && this !in Repr
      && (outer == null ==> Repr == {})
      && (outer != null ==> Repr == {outer} + outer.Repr && outer.Repr < Repr && outer.Valid())
    }

    /** The chain as a value, this frame first. */
    ghost function Abstract(): (fs: seq<Frame>)
      requires Valid()
      reads this, Repr
      ensures |fs| >= 1 && fs[0] == Frame(usedWords, wordTypes) && FramesOk(fs)
      decreases Repr
    {
      [Frame(usedWords, wordTypes)] + if outer == null then [] else outer.Abstract()
    }

    /** The enclosing frame is valid and is the rest of the chain. */
    lemma OuterFacts()
      requires Valid() && outer != null
      ensures outer.Valid() && outer.Abstract() == Abstract()[1..]
    {
    }

    /** `new Context()` (SemanticAnalyzer/Context.cs:5-8): a chain of one empty frame. */
    constructor ()
      ensures Valid() && outer == null && Abstract() == [EmptyFrame]
    {
      outer := null;
      Repr := {};
      usedWords := {};
      wordTypes := map[];
    }

    /** `new Context(outerContext)` (SemanticAnalyzer/Context.cs:10-13): an empty frame inside `outerContext`. */
    constructor Nested(outerContext: Context)
      requires outerContext.Valid()
      ensures Valid() && outer == outerContext && Repr == {outerContext} + outerContext.Repr
      ensures Abstract() == [EmptyFrame] + outerContext.Abstract()
    {
      outer := outerContext;
      Repr := {outerContext} + outerContext.Repr;
      usedWords := {};
      wordTypes := map[];
    }

    /** CheckWord (SemanticAnalyzer/Context.cs:20-26). */
    function CheckWord(word: string): (r: bool)
      requires Valid()
      reads this, Repr
      ensures r == Sees(Abstract(), word)
      decreases Repr
    {
      word in usedWords || (outer != null && outer.CheckWord(word))
    }

    /** WordHasType (SemanticAnalyzer/Context.cs:36-42). */
    function WordHasType(word: string): (r: bool)
      requires Valid()
      reads this, Repr
      ensures r == Typed(Abstract(), word)
      decreases Repr
    {
      word in wordTypes || (outer != null && outer.WordHasType(word))
    }

    /** GetWordType (SemanticAnalyzer/Context.cs:44-49); the outer frame is null only when no frame types `word`. */
    function GetWordType(word: string): (r: string)
      requires Valid() && WordHasType(word)
      reads this, Repr
      ensures r == TypeIn(Abstract(), word)
      decreases Repr
    {
      if word in wordTypes then wordTypes[word] else outer.GetWordType(word)
    }

    /** ReserveWord (SemanticAnalyzer/Context.cs:28-34): only this frame changes. */
    method ReserveWord(word: string) returns (r: Outcome)
      requires Valid()
      modifies this
      ensures Valid()
      ensures var res := Reserve(old(Abstract()), word);
        && r == OutcomeOf(res)
        && Abstract() == (if res.Ok? then res.value else old(Abstract()))
    {
      if WordHasType(word) {
        return Fail(ReservedMessage(word));
      }
      usedWords := usedWords + {word};
      return Pass;
    }

    /** SetWordType (SemanticAnalyzer/Context.cs:51-55): only this frame changes. */
    method SetWordType(word: string, wordType: string) returns (r: Outcome)
      requires Valid()
      modifies this
      ensures Valid()
      ensures var res := SetType(old(Abstract()), word, wordType);
        && r == OutcomeOf(res)
        && Abstract() == (if res.Ok? then res.value else old(Abstract()))
    {
      r := ReserveWord(word);
      if r.Fail? {
        return;
      }
      wordTypes := wordTypes[word := wordType];
    }
  }
}
