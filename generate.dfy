/**
 * The text generator makeText (markov.c:149-193): a random walk over the
 * chain table.
 *
 * The random source is a parameter: `rand` holds the values the source
 * gives, one per call of g_random_int_range(0, n), and the k-th call
 * returns rand[k] % n. The walk is a state machine over Gen values with
 * the phases SelectingStart (markov.c:158-162), Emitting (markov.c:167-191)
 * and Done; each step consumes one draw, so a walk that runs out of draws
 * stops in the phase it is in. What makeText prints is a list of events: a
 * word (printed with a trailing space) or a line break.
 */
module Generate {
  import opened Tokenize
  import opened Chains

  /** MAX_LINE_LENGTH (markov.c:32). */
  const MaxLineLength: nat := 60

  datatype Phase = SelectingStart | Emitting | Done

  /** One piece of output: "word " or "\n". */
  datatype Event = Text(word: string) | Break

  /** The generator's state: its phase, the current bigram, line_length,
   *  how many draws it has used, and what it has printed. */
  datatype Gen = Gen(phase: Phase, window: Bigram, lineLength: nat, next: nat, out: seq<Event>)

  /** g_ascii_isupper(*w) (markov.c:160): the first byte is 'A'..'Z'. The
   *  first byte of an empty C string is its NUL, which is not upper case. */
  predicate StartsUpper(w: string) {
    |w| > 0 && 'A' <= w[0] <= 'Z'
  }

  /** StartsUpper holds exactly when the first character is one of the 26
   *  ASCII capital letters. */
  lemma StartsUpperAscii(w: string)
    ensures StartsUpper(w) <==> |w| > 0 && w[0] in "ABCDEFGHIJKLMNOPQRSTUVWXYZ"
  {
  }

  /** The k-th call g_random_int_range(0, n). */
  function Draw(rand: seq<nat>, k: nat, n: nat): (i: nat)
    requires k < |rand| && n > 0
    ensures i < n
  {
    rand[k] % n
  }

  /** The state on entry to makeText. */
  function Initial(): Gen {
    Gen(SelectingStart, Bigram("", ""), 0, 0, [])
  }

  /** The key array makeText samples from: a non-empty array of keys of the table. */
  predicate KeysOf(t: Table, keys: seq<Bigram>) {
    |keys| > 0 && forall i | 0 <= i < |keys| :: keys[i] in t
  }

  /** What a step needs: a walkable table, keys of it, a draw count within
   *  the random source, and, while emitting, a current bigram that is a key. */
  predicate Ready(t: Table, keys: seq<Bigram>, rand: seq<nat>, g: Gen) {
    && WellFormed(t)
    && KeysOf(t, keys)
    && g.next <= |rand|
    && (g.phase == Emitting ==> g.window in t)
  }

  /** One pass of the start-selection loop (markov.c:158-162): draw a key;
   *  if its first word starts with an upper-case letter, print the key's
   *  two words (markov.c:164) and start emitting. */
  function SelectStep(keys: seq<Bigram>, rand: seq<nat>, g: Gen): (g': Gen)
    requires g.phase == SelectingStart && g.next < |rand| && |keys| > 0
    ensures g'.next == g.next + 1
    ensures g'.phase != Done
    ensures g'.phase == Emitting <==> StartsUpper(keys[Draw(rand, g.next, |keys|)].first)
    ensures g'.phase == Emitting ==>
              && g'.window == keys[Draw(rand, g.next, |keys|)]
              && g'.out == g.out + [Text(g'.window.first), Text(g'.window.second)]
              && g'.lineLength == |g'.window.first| + |g'.window.second| + 2
    ensures g'.phase == SelectingStart ==> g'.out == g.out
  {
    var bigram := keys[Draw(rand, g.next, |keys|)];
    if StartsUpper(bigram.first) then
      Gen(Emitting, bigram, |bigram.first| + |bigram.second| + 2, g.next + 1,
          g.out + [Text(bigram.first), Text(bigram.second)])
    else
      g.(next := g.next + 1)
  }

  /** One pass of the emitting loop (markov.c:167-191): draw a follower of
   *  the current bigram; stop on the sentinel, otherwise print the word
   *  (after a line break when line_length passes the maximum) and shift
   *  the window. */
  function EmitStep(t: Table, rand: seq<nat>, unit: nat, g: Gen): (g': Gen)
    requires g.phase == Emitting && g.next < |rand| && g.window in t && |t[g.window]| > 0
    ensures g'.next == g.next + 1
    ensures var f := t[g.window][Draw(rand, g.next, |t[g.window]|)];
      && (g'.phase == Done <==> f == End)
      && (f == End ==> g'.out == g.out + [Break])
      && (f.Word? ==>
            && g'.phase == Emitting
            && g'.window == Bigram(g.window.second, f.word)
            && (g.lineLength + unit > MaxLineLength ==>
                  g'.out == g.out + [Break, Text(f.word)] && g'.lineLength == unit)
            && (g.lineLength + unit <= MaxLineLength ==>
                  g'.out == g.out + [Text(f.word)] && g'.lineLength == g.lineLength + unit)
            && (unit <= MaxLineLength ==> g'.lineLength <= MaxLineLength))
  {
    var chain := t[g.window];
    var follows := chain[Draw(rand, g.next, |chain|)];
    match follows
    case End => g.(phase := Done, next := g.next + 1, out := g.out + [Break])
    case Word(w) =>
      var grown := g.lineLength + unit;
      if grown > MaxLineLength then
        Gen(Emitting, Bigram(g.window.second, w), unit, g.next + 1, g.out + [Break, Text(w)])
      else
        Gen(Emitting, Bigram(g.window.second, w), grown, g.next + 1, g.out + [Text(w)])
  }

  /** One step of whichever loop the generator is in. Every step keeps the
   *  current bigram a key of the table, so the lookup of markov.c:171
   *  always finds a non-empty list. */
  function Step(t: Table, keys: seq<Bigram>, rand: seq<nat>, unit: nat, g: Gen): (g': Gen)
    requires Ready(t, keys, rand, g) && g.next < |rand| && g.phase != Done
    ensures Ready(t, keys, rand, g')
    ensures g'.next == g.next + 1
  {
    if g.phase == SelectingStart then SelectStep(keys, rand, g) else EmitStep(t, rand, unit, g)
  }

  /** The walk from `g` until it reaches Done or has used every draw. */
  function Run(t: Table, keys: seq<Bigram>, rand: seq<nat>, unit: nat, g: Gen): (r: Gen)
    requires Ready(t, keys, rand, g)
    ensures Ready(t, keys, rand, r)
    ensures r.phase == Done || r.next == |rand|
    ensures g.next <= r.next
    ensures g.phase == Done ==> r == g
    decreases |rand| - g.next
  {
    if g.phase == Done || g.next == |rand| then g
    else Run(t, keys, rand, unit, Step(t, keys, rand, unit, g))
  }

  /** A step that is taken does not change where the walk ends. */
  lemma RunStep(t: Table, keys: seq<Bigram>, rand: seq<nat>, unit: nat, g: Gen)
    requires Ready(t, keys, rand, g) && g.next < |rand| && g.phase != Done
    ensures Run(t, keys, rand, unit, g) == Run(t, keys, rand, unit, Step(t, keys, rand, unit, g))
  {
  }

  /** A word is in the table's vocabulary when some key holds it. */
  predicate IsKeyWord(t: Table, w: string) {
    exists k | k in t :: k.first == w || k.second == w
  }

  /** What holds of every state of the walk: nothing is printed before the
   *  start is chosen; the first word printed starts with an upper-case
   *  letter; every word printed is a word of the table; while emitting,
   *  the last word printed is the second word of the current bigram and,
   *  once a follower was printed, line_length stays within the maximum
   *  whenever the unit does; a finished walk ends with a line break. */
  ghost predicate Inv(t: Table, unit: nat, g: Gen) {
    && (g.phase == SelectingStart ==> g.out == [])
    && (g.phase != SelectingStart ==> |g.out| >= 2 && g.out[0].Text? && StartsUpper(g.out[0].word))
    && (forall i | 0 <= i < |g.out| && g.out[i].Text? :: IsKeyWord(t, g.out[i].word))
    && (g.phase == Emitting ==> g.out[|g.out| - 1] == Text(g.window.second))
    && (g.phase == Emitting && |g.out| > 2 && unit <= MaxLineLength ==> g.lineLength <= MaxLineLength)
    && (g.phase == Done ==> g.out[|g.out| - 1] == Break)
  }

  /** Each step keeps the invariant. */
  lemma StepInv(t: Table, keys: seq<Bigram>, rand: seq<nat>, unit: nat, g: Gen)
    requires Ready(t, keys, rand, g) && g.next < |rand| && g.phase != Done
    requires Inv(t, unit, g)
    ensures Inv(t, unit, Step(t, keys, rand, unit, g))
  {
    var g' := Step(t, keys, rand, unit, g);
    if g.phase == SelectingStart {
      if g'.phase == Emitting {
        assert g'.window in t;
        assert g'.out == [Text(g'.window.first), Text(g'.window.second)];
      }
    } else {
      var chain := t[g.window];
      var f := chain[Draw(rand, g.next, |chain|)];
      assert g.out <= g'.out;
      if f.Word? {
        assert Bigram(g.window.second, f.word) in t;
        assert IsKeyWord(t, f.word);
      }
    }
  }

  /** The whole walk keeps the invariant. */
  lemma {:induction false} RunInv(t: Table, keys: seq<Bigram>, rand: seq<nat>, unit: nat, g: Gen)
    requires Ready(t, keys, rand, g)
    requires Inv(t, unit, g)
    ensures Inv(t, unit, Run(t, keys, rand, unit, g))
    decreases |rand| - g.next
  {
    if g.phase != Done && g.next < |rand| {
      StepInv(t, keys, rand, unit, g);
      RunInv(t, keys, rand, unit, Step(t, keys, rand, unit, g));
    }
  }

  /** Every word of a table makeChains built is a piece of its text. */
  lemma KeyWordsArePieces(text: string, w: string)
    requires |Pieces(text)| >= 2
    requires IsKeyWord(ChainsOf(Retained(Pieces(text))), w)
    ensures w in Pieces(text)
  {
    var t := ChainsOf(Retained(Pieces(text)));
    var k :| k in t && (k.first == w || k.second == w);
    BuiltTable(text);
  }

  /** The walk over the table makeChains built from `text`: it never fails
   *  a lookup, prints only pieces of the text, starts with a word that
   *  begins with an upper-case letter, keeps each line within the maximum
   *  once a follower was printed, and ends a finished walk with a line
   *  break. */
  lemma WalkOnBuiltTable(text: string, keys: seq<Bigram>, rand: seq<nat>, unit: nat)
    requires |Pieces(text)| >= 2
    requires KeysOf(ChainsOf(Retained(Pieces(text))), keys)
    ensures WellFormed(ChainsOf(Retained(Pieces(text))))
    ensures WellFormed(ChainsOf(Retained(Pieces(text)))) &&
      var g := Run(ChainsOf(Retained(Pieces(text))), keys, rand, unit, Initial());
      && (forall i | 0 <= i < |g.out| && g.out[i].Text? :: g.out[i].word in Pieces(text))
      && (g.phase == SelectingStart ==> g.out == [])
      && (g.phase != SelectingStart ==> |g.out| >= 2 && g.out[0].Text? && StartsUpper(g.out[0].word))
      && (g.phase == Emitting && |g.out| > 2 && unit <= MaxLineLength ==> g.lineLength <= MaxLineLength)
      && (g.phase == Done ==> g.out[|g.out| - 1] == Break)
  {
    var t := ChainsOf(Retained(Pieces(text)));
    BuiltTable(text);
    RunInv(t, keys, rand, unit, Initial());
    var g := Run(t, keys, rand, unit, Initial());
    forall i | 0 <= i < |g.out| && g.out[i].Text? ensures g.out[i].word in Pieces(text) {
      KeyWordsArePieces(text, g.out[i].word);
    }
  }

  /** A walk over the worked example: starting at (Hello, world), drawing
   *  foo and then baz, it meets the sentinel under (foo, baz) and prints
   *  "Hello world foo baz" and a newline. */
  lemma HelloWorldWalk(keys: seq<Bigram>)
    requires KeysOf(ChainsOf(HelloWords()), keys) && keys[0] == Bigram("Hello", "world")
    ensures WellFormed(ChainsOf(HelloWords()))
    ensures WellFormed(ChainsOf(HelloWords())) &&
      Run(ChainsOf(HelloWords()), keys, [0, 0, 1, 0], 8, Initial())
        == Gen(Done, Bigram("foo", "baz"), 28, 4, [Text("Hello"), Text("world"), Text("foo"), Text("baz"), Break])
  {
    var t := ChainsOf(HelloWords());
    ChainsOfWellFormed(HelloWords());
    HelloWorldChains();
    HelloWorldSteps(t, keys);
  }

  /** The four steps of that walk, on any table whose lists under
   *  (Hello, world), (world, foo) and (foo, baz) are those of the example. */
  lemma HelloWorldSteps(t: Table, keys: seq<Bigram>)
    requires WellFormed(t) && KeysOf(t, keys) && keys[0] == Bigram("Hello", "world")
    requires Bigram("Hello", "world") in t && t[Bigram("Hello", "world")] == [Word("foo")]
    requires Bigram("world", "foo") in t && t[Bigram("world", "foo")] == [Word("bar"), Word("baz")]
    requires Bigram("foo", "baz") in t && t[Bigram("foo", "baz")] == [End]
    ensures Run(t, keys, [0, 0, 1, 0], 8, Initial())
        == Gen(Done, Bigram("foo", "baz"), 28, 4, [Text("Hello"), Text("world"), Text("foo"), Text("baz"), Break])
  {
    var rand: seq<nat> := [0, 0, 1, 0];
    var g0 := Initial();
    var g1 := Gen(Emitting, Bigram("Hello", "world"), 12, 1, [Text("Hello"), Text("world")]);
    var g2 := Gen(Emitting, Bigram("world", "foo"), 20, 2, g1.out + [Text("foo")]);
    var g3 := Gen(Emitting, Bigram("foo", "baz"), 28, 3, g2.out + [Text("baz")]);
    var g4 := Gen(Done, Bigram("foo", "baz"), 28, 4, g3.out + [Break]);
    assert Step(t, keys, rand, 8, g0) == g1 by {
      assert Draw(rand, 0, |keys|) == 0;
      assert StartsUpper("Hello");
    }
    assert Step(t, keys, rand, 8, g1) == g2 by {
      assert Draw(rand, 1, 1) == 0;
    }
    assert Step(t, keys, rand, 8, g2) == g3 by {
      assert Draw(rand, 2, 2) == 1;
    }
    assert Step(t, keys, rand, 8, g3) == g4 by {
      assert Draw(rand, 3, 1) == 0;
    }
    RunStep(t, keys, rand, 8, g0);
    RunStep(t, keys, rand, 8, g1);
    RunStep(t, keys, rand, 8, g2);
    RunStep(t, keys, rand, 8, g3);
    assert g4.out == [Text("Hello"), Text("world"), Text("foo"), Text("baz"), Break];
  }

  /** makeText (markov.c:149-193) with the random source `rand` and the
   *  width `unit` that sizeof(follows) gives: the keys it samples from, and the state the walk
   *  ends in. */
  method MakeText(table: ChainTable, rand: seq<nat>, unit: nat) returns (keys: seq<Bigram>, g: Gen)
    requires WellFormed(table.chains)
    ensures |keys| == |table.chains| && KeysOf(table.chains, keys)
    ensures forall k | k in table.chains :: k in keys
    ensures g == Run(table.chains, keys, rand, unit, Initial())
    ensures g.phase == Done || g.next == |rand|
  {
    keys := table.KeysAsArray();
    var chains := table.chains;
    var nChains := |keys|;
    ghost var goal := Run(chains, keys, rand, unit, Initial());
    var bigram := Bigram("", "");
    var lineLength: nat := 0;
    var next: nat := 0;
    var out: seq<Event> := [];

    // Draw keys until one starts upper-case or the draws run out.
    var found := false;
    while next < |rand|
      invariant next <= |rand|
      invariant !found
      invariant Run(chains, keys, rand, unit, Gen(SelectingStart, Bigram("", ""), 0, next, [])) == goal
    {
      ghost var before := Gen(SelectingStart, Bigram("", ""), 0, next, []);
      RunStep(chains, keys, rand, unit, before);
      var candidate := keys[Draw(rand, next, nChains)];
      next := next + 1;
      assert !StartsUpper(candidate.first) ==>
        Step(chains, keys, rand, unit, before) == Gen(SelectingStart, Bigram("", ""), 0, next, []);
      if StartsUpper(candidate.first) {
        bigram := candidate;
        lineLength := |bigram.first| + |bigram.second| + 2;
        out := [Text(bigram.first), Text(bigram.second)];
        found := true;
        assert Step(chains, keys, rand, unit, before) == Gen(Emitting, bigram, lineLength, next, out);
        break;
      }
    }
    if !found {
      return keys, Gen(SelectingStart, Bigram("", ""), 0, next, []);
    }
    assert Run(chains, keys, rand, unit, Gen(Emitting, bigram, lineLength, next, out)) == goal;

    // Generate text until the end of the source text is drawn.
    var done := false;
    while next < |rand|
      invariant next <= |rand|
      invariant bigram in chains
      invariant Run(chains, keys, rand, unit, Gen(Emitting, bigram, lineLength, next, out)) == goal
    {
      ghost var before := Gen(Emitting, bigram, lineLength, next, out);
      RunStep(chains, keys, rand, unit, before);
      var chain := chains[bigram];
      var follows := chain[Draw(rand, next, |chain|)];
      next := next + 1;
      if follows == End {
        out := out + [Break];
        done := true;
        assert Step(chains, keys, rand, unit, before) == Gen(Done, bigram, lineLength, next, out);
        break;
      }
      lineLength := lineLength + unit;
      if lineLength > MaxLineLength {
        out := out + [Break];
        lineLength := unit;
      }
      out := out + [Text(follows.word)];
      bigram := Bigram(bigram.second, follows.word);
      assert Step(chains, keys, rand, unit, before) == Gen(Emitting, bigram, lineLength, next, out);
    }
    g := Gen(if done then Done else Emitting, bigram, lineLength, next, out);
  }
}
