/**
 * The chain table of markov.c: bigram keys, their hash and equality
 * (markov.c:37-70), the find-or-create-then-append insertion
 * (markov.c:78-95) and the builder makeChains (markov.c:103-142).
 *
 * The GLib hash table is modelled as a map from Bigram values to the list
 * of followers recorded under them; End stands for the NULL follower that
 * marks the end of the source text.
 */
module Chains {
  import opened Tokenize

  /** A pair of consecutive words, the key of the table (markov.c:37-40). */
  datatype Bigram = Bigram(first: string, second: string)

  /** A follower: a word of the source, or the NULL sentinel of markov.c:139. */
  datatype Follower = Word(word: string) | End

  type Table = map<Bigram, seq<Follower>>

  /** bigram_equal (markov.c:64-70): both words are string-equal. */
  function BigramEqual(b1: Bigram, b2: Bigram): (eq: bool)
    ensures eq <==> b1 == b2
  {
    b1.first == b2.first && b1.second == b2.second
  }

  // ---------------------------------------------------------------------
  // Hashing (markov.c:50-54). g_str_hash is the djb2 hash over the bytes of
  // the string read as signed chars, in 32-bit unsigned arithmetic.
  // ---------------------------------------------------------------------

  /** A character as the signed char g_str_hash adds, widened to 32 bits. */
  function SignedByte(c: char): bv32 {
    var b := (c as int) % 256;
    if b < 128 then b as bv32 else (b + 0xFFFF_FF00) as bv32
  }

  function StrHashFrom(h: bv32, s: string): bv32
    decreases |s|
  {
    if s == [] then h else StrHashFrom((h << 5) + h + SignedByte(s[0]), s[1..])
  }

  /** g_str_hash. */
  function StrHash(s: string): bv32 {
    StrHashFrom(5381, s)
  }

  /** bigram_hash: the bitwise OR of the hashes of the two words. */
  function BigramHash(b: Bigram): (h: bv32)
    ensures StrHash(b.first) & h == StrHash(b.first)
    ensures StrHash(b.second) & h == StrHash(b.second)
  {
    StrHash(b.first) | StrHash(b.second)
  }

  /** The hash agrees with the equality: equal bigrams hash equal. */
  lemma HashRespectsEquality(b1: Bigram, b2: Bigram)
    requires BigramEqual(b1, b2)
    ensures BigramHash(b1) == BigramHash(b2)
  {
  }

  /** Because it combines with OR, the hash ignores the order of the words:
   *  a bigram and its reversal collide although they are not equal. */
  lemma HashSymmetric(x: string, y: string)
    ensures BigramHash(Bigram(x, y)) == BigramHash(Bigram(y, x))
    ensures x != y ==> !BigramEqual(Bigram(x, y), Bigram(y, x))
  {
  }

  // ---------------------------------------------------------------------
  // The table as a value, and the insertion of markov.c:78-95 on it.
  // ---------------------------------------------------------------------

  /** The followers recorded under `k`; none when the key is absent. */
  function Lookup(t: Table, k: Bigram): seq<Follower> {
    if k in t then t[k] else []
  }

  /** The table after appending follower `f` under key `k`. */
  function Added(t: Table, k: Bigram, f: Follower): Table {
    t[k := Lookup(t, k) + [f]]
  }

  /** Appending under `k` grows the list of `k` by `f` and leaves every
   *  other list as it was. */
  lemma LookupAdded(t: Table, k: Bigram, f: Follower, k': Bigram)
    ensures k' in Added(t, k, f) <==> k' in t || k' == k
    ensures Lookup(Added(t, k, f), k') == if k' == k then Lookup(t, k) + [f] else Lookup(t, k')
  {
  }

  /** The hash table of markov.c, whose follower lists grow in place. */
  class ChainTable {
    var chains: Table

    /** g_hash_table_new (markov.c:109): an empty table. */
    constructor ()
      ensures chains == map[]
    {
      chains := map[];
    }

    /** add_word_to_chain (markov.c:78-95): find the list of (first, second)
     *  or start an empty one, and append `follows` to it. */
    method AddWordToChain(first: string, second: string, follows: Follower)
      modifies this
      ensures Bigram(first, second) in chains
      ensures Bigram(first, second) in old(chains) ==>
                chains[Bigram(first, second)] == old(chains)[Bigram(first, second)] + [follows]
      ensures Bigram(first, second) !in old(chains) ==> chains[Bigram(first, second)] == [follows]
      ensures forall k | k != Bigram(first, second) :: (k in chains <==> k in old(chains))
      ensures forall k | k in old(chains) && k != Bigram(first, second) :: chains[k] == old(chains)[k]
      ensures chains == Added(old(chains), Bigram(first, second), follows)
    {
      var bigram := Bigram(first, second);
      var followWords: seq<Follower> := [];
      if bigram in chains {
        followWords := chains[bigram];
      }
      followWords := followWords + [follows];
      chains := chains[bigram := followWords];
    }

    /** g_hash_table_get_keys_as_array (markov.c:155): every key once, in
     *  an order the table chooses; its length is n_chains. */
    method KeysAsArray() returns (keys: seq<Bigram>)
      ensures |keys| == |chains|
      ensures forall i | 0 <= i < |keys| :: keys[i] in chains
      ensures forall k | k in chains :: k in keys
      ensures forall i, j | 0 <= i < j < |keys| :: keys[i] != keys[j]
    {
      keys := [];
      var rest := chains.Keys;
      while rest != {}
        invariant rest <= chains.Keys
        invariant forall i | 0 <= i < |keys| :: keys[i] in chains && keys[i] !in rest
        invariant forall k | k in chains :: k in rest || k in keys
        invariant forall i, j | 0 <= i < j < |keys| :: keys[i] != keys[j]
        invariant |keys| + |rest| == |chains|
        decreases |rest|
      {
        var k :| k in rest;
        keys := keys + [k];
        rest := rest - {k};
      }
    }
  }

  // ---------------------------------------------------------------------
  // What makeChains builds, as functions of the words it keeps.
  // ---------------------------------------------------------------------

  /** The non-empty strings of `s`, in order (markov.c:127-128 skips the rest):
   *  NonEmptyCount and NonEmptyAppend show that each non-empty string keeps
   *  its number of occurrences and that the order is kept. */
  function NonEmpty(s: seq<string>): (r: seq<string>)
    ensures |r| <= |s|
    ensures forall i | 0 <= i < |r| :: r[i] != ""
    ensures forall x :: x in r <==> x in s && x != ""
  {
    if s == [] then []
    else
      var rest := NonEmpty(s[1..]);
      assert forall x :: x in s <==> x == s[0] || x in s[1..];
      if s[0] == "" then rest else [s[0]] + rest
  }

  /** Filtering works piece by piece: the kept strings of a concatenation
   *  are those of the first part followed by those of the second, so the
   *  order of the input is kept. */
  lemma {:induction false} NonEmptyAppend(s: seq<string>, u: seq<string>)
    ensures NonEmpty(s + u) == NonEmpty(s) + NonEmpty(u)
  {
    if s == [] {
      assert s + u == u;
    } else {
      var x, rest := s[0], s[1..];
      assert s == [x] + rest;
      assert s + u == [x] + (rest + u);
      NonEmptyAppend(rest, u);
      NonEmptyCons(x, rest);
      NonEmptyCons(x, rest + u);
    }
  }

  /** One string in front is kept, or skipped when empty. */
  lemma NonEmptyCons(x: string, s: seq<string>)
    ensures NonEmpty([x] + s) == (if x == "" then [] else [x]) + NonEmpty(s)
  {
    assert ([x] + s)[1..] == s;
  }

  /** Every non-empty string is kept as often as it occurs, and no empty
   *  string is kept. */
  lemma {:induction false} NonEmptyCount(s: seq<string>)
    ensures multiset(NonEmpty(s)) == multiset(s)["" := 0]
  {
    if s != [] {
      NonEmptyCount(s[1..]);
      assert s == [s[0]] + s[1..];
    }
  }

  /** A single string is kept exactly when it is not empty. */
  lemma NonEmptySingle(x: string)
    ensures NonEmpty([x]) == if x == "" then [] else [x]
  {
    assert [x][1..] == [];
  }

  /** The words makeChains slides its window over: pieces 0 and 1 always
   *  (even when empty, markov.c:120-121), then the non-empty later ones. */
  function Retained(pieces: seq<string>): (ws: seq<string>)
    requires |pieces| >= 2
    ensures |ws| >= 2 && ws[..2] == pieces[..2]
    ensures forall i | 2 <= i < |ws| :: ws[i] != ""
    ensures forall x :: x in ws ==> x in pieces
  {
    var later := NonEmpty(pieces[2..]);
    assert forall x | x in pieces[2..] :: x in pieces;
    pieces[..2] + later
  }

  /** The bigram at position `i` of a word sequence. */
  function PairAt(ws: seq<string>, i: nat): Bigram
    requires i + 1 < |ws|
  {
    Bigram(ws[i], ws[i + 1])
  }

  /** The last bigram of a word sequence: the window when the loop ends. */
  function LastPair(ws: seq<string>): Bigram
    requires |ws| >= 2
  {
    PairAt(ws, |ws| - 2)
  }

  /** Table `t` after every word of `ws` from the third on has been appended
   *  under the two words before it, front to back (markov.c:129-134). */
  function Transitions(t: Table, ws: seq<string>): Table
    decreases |ws|
  {
    if |ws| < 3 then t else Transitions(Added(t, PairAt(ws, 0), Word(ws[2])), ws[1..])
  }

  /** The table makeChains returns for the kept words `ws`: their
   *  transitions, and the End sentinel under the last window (markov.c:139). */
  function ChainsOf(ws: seq<string>): Table
    requires |ws| >= 2
  {
    Added(Transitions(map[], ws), LastPair(ws), End)
  }

  /** How often `a, b, w` occur as consecutive words of `ws`. */
  function TripleCount(ws: seq<string>, a: string, b: string, w: string): nat {
    if |ws| < 3 then 0
    else (if ws[0] == a && ws[1] == b && ws[2] == w then 1 else 0) + TripleCount(ws[1..], a, b, w)
  }

  /** A table every makeText step can use: it has a key, every list is
   *  non-empty, and every word follower leads to a key of the table. */
  predicate WellFormed(t: Table) {
    && |t| > 0
    && (forall k | k in t :: |t[k]| > 0)
    && (forall k: Bigram, j: int | k in t && 0 <= j < |t[k]| && t[k][j].Word? :: Bigram(k.second, t[k][j].word) in t)
  }

  // ---------------------------------------------------------------------
  // What the built table holds.
  // ---------------------------------------------------------------------

  /** Appending to a table whose lists are all non-empty keeps them so. */
  lemma AddedNonEmpty(t: Table, k: Bigram, f: Follower)
    requires forall k' | k' in t :: |t[k']| > 0
    ensures forall k' | k' in Added(t, k, f) :: |Added(t, k, f)[k']| > 0
  {
    forall k' | k' in Added(t, k, f) ensures |Added(t, k, f)[k']| > 0 {
      LookupAdded(t, k, f, k');
    }
  }

  /** The transitions never leave an empty list behind. */
  lemma {:induction false} TransitionsNonEmpty(t: Table, ws: seq<string>)
    requires forall k | k in t :: |t[k]| > 0
    ensures forall k | k in Transitions(t, ws) :: |Transitions(t, ws)[k]| > 0
    decreases |ws|
  {
    if |ws| >= 3 {
      AddedNonEmpty(t, PairAt(ws, 0), Word(ws[2]));
      TransitionsNonEmpty(Added(t, PairAt(ws, 0), Word(ws[2])), ws[1..]);
    }
  }

  /** The bigrams of a tail are the later bigrams of the whole. */
  lemma PairAtTail(ws: seq<string>, i: nat)
    requires i + 2 < |ws|
    ensures PairAt(ws[1..], i) == PairAt(ws, i + 1) && ws[1..][i + 1] == ws[i + 2]
  {
  }

  /** The keys the transitions add are exactly the bigrams that have a
   *  word after them in `ws`. */
  lemma {:induction false} TransitionsKeys(t: Table, ws: seq<string>, k: Bigram)
    ensures k in Transitions(t, ws) <==> k in t || exists i | 0 <= i < |ws| - 2 :: PairAt(ws, i) == k
    decreases |ws|
  {
    if |ws| >= 3 {
      var t', tail := Added(t, PairAt(ws, 0), Word(ws[2])), ws[1..];
      TransitionsKeys(t', tail, k);
      LookupAdded(t, PairAt(ws, 0), Word(ws[2]), k);
      if exists i | 0 <= i < |tail| - 2 :: PairAt(tail, i) == k {
        var i :| 0 <= i < |tail| - 2 && PairAt(tail, i) == k;
        PairAtTail(ws, i);
      }
      if exists i | 0 <= i < |ws| - 2 :: PairAt(ws, i) == k {
        var i :| 0 <= i < |ws| - 2 && PairAt(ws, i) == k;
        if i > 0 {
          PairAtTail(ws, i - 1);
        }
      }
    }
  }

  /** The keys of the built table are exactly the consecutive pairs of the
   *  kept words: every pair becomes a key, and nothing else does. */
  lemma ChainsOfKeys(ws: seq<string>, k: Bigram)
    requires |ws| >= 2
    ensures k in ChainsOf(ws) <==> exists i | 0 <= i <= |ws| - 2 :: PairAt(ws, i) == k
  {
    TransitionsKeys(map[], ws, k);
    LookupAdded(Transitions(map[], ws), LastPair(ws), End, k);
    if k in Transitions(map[], ws) {
      var i :| 0 <= i < |ws| - 2 && PairAt(ws, i) == k;
    }
  }

  /** A triple is counted exactly when it occurs somewhere in `ws`. */
  lemma {:induction false} TripleCountPositive(ws: seq<string>, a: string, b: string, w: string)
    ensures TripleCount(ws, a, b, w) > 0
        <==> exists i | 0 <= i < |ws| - 2 :: PairAt(ws, i) == Bigram(a, b) && ws[i + 2] == w
    decreases |ws|
  {
    if |ws| >= 3 {
      var tail := ws[1..];
      TripleCountPositive(tail, a, b, w);
      if exists i | 0 <= i < |ws| - 2 :: PairAt(ws, i) == Bigram(a, b) && ws[i + 2] == w {
        var i :| 0 <= i < |ws| - 2 && PairAt(ws, i) == Bigram(a, b) && ws[i + 2] == w;
        if i > 0 {
          PairAtTail(ws, i - 1);
          assert PairAt(tail, i - 1) == Bigram(a, b) && tail[i + 1] == w;
        }
      }
      if ws[0] == a && ws[1] == b && ws[2] == w {
        assert PairAt(ws, 0) == Bigram(a, b) && ws[2] == w;
      }
      if TripleCount(tail, a, b, w) > 0 {
        var i :| 0 <= i < |tail| - 2 && PairAt(tail, i) == Bigram(a, b) && tail[i + 2] == w;
        PairAtTail(ws, i + 1);
        assert PairAt(ws, i + 1) == Bigram(a, b) && ws[i + 3] == w;
      }
    }
  }

  /** Under each key, the transitions add word `w` once per occurrence of
   *  the triple (key, w) in `ws`, and never add the sentinel. */
  lemma {:induction false} TransitionsCount(t: Table, ws: seq<string>, k: Bigram, f: Follower)
    ensures multiset(Lookup(Transitions(t, ws), k))[f]
         == multiset(Lookup(t, k))[f] + if f.Word? then TripleCount(ws, k.first, k.second, f.word) else 0
    decreases |ws|
  {
    if |ws| >= 3 {
      var t' := Added(t, PairAt(ws, 0), Word(ws[2]));
      TransitionsCount(t', ws[1..], k, f);
      LookupAdded(t, PairAt(ws, 0), Word(ws[2]), k);
    }
  }

  /** Frequency is preserved: under key (a, b) of the built table, word `w`
   *  appears as often as `a, b, w` occur consecutively in the kept words. */
  lemma FollowerMultiplicity(ws: seq<string>, a: string, b: string, w: string)
    requires |ws| >= 2
    ensures multiset(Lookup(ChainsOf(ws), Bigram(a, b)))[Word(w)] == TripleCount(ws, a, b, w)
  {
    TransitionsCount(map[], ws, Bigram(a, b), Word(w));
    LookupAdded(Transitions(map[], ws), LastPair(ws), End, Bigram(a, b));
  }

  /** Exactly one sentinel in the whole table: once under the last pair of
   *  the kept words and nowhere else. */
  lemma SingleSentinel(ws: seq<string>, k: Bigram)
    requires |ws| >= 2
    ensures multiset(Lookup(ChainsOf(ws), k))[End] == if k == LastPair(ws) then 1 else 0
  {
    TransitionsCount(map[], ws, k, End);
    LookupAdded(Transitions(map[], ws), LastPair(ws), End, k);
  }

  /** The built table is one makeText can walk: it has a key, every list is
   *  non-empty, and after any word follower w of key (a, b) the lookup of
   *  (b, w) at markov.c:171 finds a key. */
  lemma ChainsOfWellFormed(ws: seq<string>)
    requires |ws| >= 2
    ensures WellFormed(ChainsOf(ws))
  {
    var t: Table := ChainsOf(ws);
    assert LastPair(ws) in t;
    TransitionsNonEmpty(map[], ws);
    AddedNonEmpty(Transitions(map[], ws), LastPair(ws), End);
    forall k: Bigram, j: int | k in t && 0 <= j < |t[k]| && t[k][j].Word?
      ensures Bigram(k.second, t[k][j].word) in t
    {
      var w := t[k][j].word;
      assert t[k][j] in multiset(t[k]);
      FollowerMultiplicity(ws, k.first, k.second, w);
      TripleCountPositive(ws, k.first, k.second, w);
      var i :| 0 <= i < |ws| - 2 && PairAt(ws, i) == Bigram(k.first, k.second) && ws[i + 2] == w;
      ChainsOfKeys(ws, Bigram(k.second, w));
      assert PairAt(ws, i + 1) == Bigram(k.second, w);
    }
  }

  /** Every word of the table (a key's word or a follower) is a kept word,
   *  and a follower word is a kept word from position 2 on. */
  lemma ChainsOfWords(ws: seq<string>, k: Bigram)
    requires |ws| >= 2
    requires k in ChainsOf(ws)
    ensures k.first in ws && k.second in ws
    ensures forall j | 0 <= j < |ChainsOf(ws)[k]| && ChainsOf(ws)[k][j].Word? ::
              exists i | 2 <= i < |ws| :: ws[i] == ChainsOf(ws)[k][j].word
  {
    var t: Table := ChainsOf(ws);
    ChainsOfKeys(ws, k);
    var i :| 0 <= i <= |ws| - 2 && PairAt(ws, i) == k;
    forall j: int | 0 <= j < |t[k]| && t[k][j].Word?
      ensures exists i | 2 <= i < |ws| :: ws[i] == t[k][j].word
    {
      var w := t[k][j].word;
      assert t[k][j] in multiset(t[k]);
      FollowerMultiplicity(ws, k.first, k.second, w);
      TripleCountPositive(ws, k.first, k.second, w);
      var i' :| 0 <= i' < |ws| - 2 && PairAt(ws, i') == Bigram(k.first, k.second) && ws[i' + 2] == w;
      assert ws[i' + 2] == w;
    }
  }

  /** What makeChains returns for a text it accepts: a table makeText can
   *  walk, whose first window is pieces 0 and 1 even when they are empty,
   *  whose words are all pieces of the text, and in which no follower is
   *  an empty word. */
  lemma BuiltTable(text: string)
    requires |Pieces(text)| >= 2
    ensures var t := ChainsOf(Retained(Pieces(text)));
      && WellFormed(t)
      && Bigram(Pieces(text)[0], Pieces(text)[1]) in t
      && (forall k | k in t :: k.first in Pieces(text) && k.second in Pieces(text))
      && (forall k, j | k in t && 0 <= j < |t[k]| && t[k][j].Word? :: t[k][j].word != "")
  {
    var ps := Pieces(text);
    var ws := Retained(ps);
    var t: Table := ChainsOf(ws);
    ChainsOfWellFormed(ws);
    ChainsOfKeys(ws, PairAt(ws, 0));
    assert ws[0] == ps[0] && ws[1] == ps[1];
    forall k | k in t ensures k.first in ps && k.second in ps {
      ChainsOfWords(ws, k);
    }
    forall k: Bigram, j: int | k in t && 0 <= j < |t[k]| && t[k][j].Word? ensures t[k][j].word != "" {
      ChainsOfWords(ws, k);
    }
  }

  // ---------------------------------------------------------------------
  // Worked examples.
  // ---------------------------------------------------------------------

  /** One step of the transitions, for the examples below. */
  lemma TransitionsStep(t: Table, ws: seq<string>, t': Table, tail: seq<string>)
    requires |ws| >= 3 && t' == Added(t, PairAt(ws, 0), Word(ws[2])) && tail == ws[1..]
    ensures Transitions(t, ws) == Transitions(t', tail)
  {
  }

  lemma AddedFresh(t: Table, k: Bigram, f: Follower)
    requires k !in t
    ensures Added(t, k, f) == t[k := [f]]
  {
    assert Lookup(t, k) + [f] == [f];
  }

  lemma AddedExisting(t: Table, k: Bigram, f: Follower)
    requires k in t
    ensures Added(t, k, f) == t[k := t[k] + [f]]
  {
  }

  /** Three equal words a, a, a give one key with both followers:
   *  (a, a) -> [a, End]. */
  lemma RepeatedWordChains(a: string)
    ensures var t := ChainsOf([a, a, a]);
      && t.Keys == {Bigram(a, a)}
      && t[Bigram(a, a)] == [Word(a), End]
  {
    var ws := [a, a, a];
    var t1: Table := map[Bigram(a, a) := [Word(a)]];
    AddedFresh(map[], Bigram(a, a), Word(a));
    TransitionsStep(map[], ws, t1, [a, a]);
    assert LastPair(ws) == Bigram(a, a);
    AddedExisting(t1, Bigram(a, a), End);
  }

  /** The table of three kept words a, b, c whose two pairs differ. */
  lemma ThreeWordChains(a: string, b: string, c: string)
    requires a != b || b != c
    ensures var t := ChainsOf([a, b, c]);
      && t.Keys == {Bigram(a, b), Bigram(b, c)}
      && t[Bigram(a, b)] == [Word(c)]
      && t[Bigram(b, c)] == [End]
  {
    var ws := [a, b, c];
    var t1: Table := map[Bigram(a, b) := [Word(c)]];
    AddedFresh(map[], Bigram(a, b), Word(c));
    TransitionsStep(map[], ws, t1, [b, c]);
    assert LastPair(ws) == Bigram(b, c);
    AddedFresh(t1, Bigram(b, c), End);
  }

  /** Pieces 0 and 1 are never filtered: " a b" gives the key ("", "a"). */
  lemma LeadingSpaceKey()
    ensures Pieces(" a b") == ["", "a", "b"]
    ensures var t := ChainsOf(Retained(Pieces(" a b")));
      && t.Keys == {Bigram("", "a"), Bigram("a", "b")}
      && t[Bigram("", "a")] == [Word("b")]
      && t[Bigram("a", "b")] == [End]
  {
    var ws := ["", "a", "b"];
    assert Unwords(ws) == " a b" by {
      assert Unwords(["b"]) == "b";
      assert Unwords(["a", "b"]) == "a b";
    }
    CStringNoNul(" a b");
    SplitAllUnwords(ws);
    assert Retained(ws) == ws by {
      assert ws[2..] == ["b"];
      assert NonEmpty(["b"]) == ["b"];
    }
    ThreeWordChains("", "a", "b");
  }

  /** Keeping only non-empty words changes nothing when none is empty. */
  lemma {:induction false} NonEmptyAll(s: seq<string>)
    requires forall i | 0 <= i < |s| :: s[i] != ""
    ensures NonEmpty(s) == s
  {
    if s != [] {
      NonEmptyAll(s[1..]);
      assert [s[0]] + s[1..] == s;
    }
  }

  /** The words of the worked example "Hello world foo bar world foo baz". */
  function HelloWords(): seq<string> {
    ["Hello", "world", "foo", "bar", "world", "foo", "baz"]
  }

  /** The worked example, its seven words joined by single spaces, is split
   *  back into those words, and all of them are kept. */
  lemma HelloWorldPieces(text: string)
    requires text == Unwords(HelloWords())
    ensures Pieces(text) == HelloWords()
    ensures Retained(Pieces(text)) == HelloWords()
  {
    var ws := HelloWords();
    PiecesOfUnwords(ws);
    NonEmptyAll(ws[2..]);
  }

  /** The worked example's table: (Hello, world) -> [foo],
   *  (world, foo) -> [bar, baz], (foo, bar) -> [world], (bar, world) -> [foo]
   *  and (foo, baz) -> [End]. */
  lemma HelloWorldChains()
    ensures var t := ChainsOf(HelloWords());
      && t.Keys == {Bigram("Hello", "world"), Bigram("world", "foo"), Bigram("foo", "bar"),
                    Bigram("bar", "world"), Bigram("foo", "baz")}
      && t[Bigram("Hello", "world")] == [Word("foo")]
      && t[Bigram("world", "foo")] == [Word("bar"), Word("baz")]
      && t[Bigram("foo", "bar")] == [Word("world")]
      && t[Bigram("bar", "world")] == [Word("foo")]
      && t[Bigram("foo", "baz")] == [End]
  {
    var hw, wf, fb, bw, fz := Bigram("Hello", "world"), Bigram("world", "foo"), Bigram("foo", "bar"),
                              Bigram("bar", "world"), Bigram("foo", "baz");
    var q0 := HelloWords();
    var q1 := ["world", "foo", "bar", "world", "foo", "baz"];
    var q2 := ["foo", "bar", "world", "foo", "baz"];
    var q3 := ["bar", "world", "foo", "baz"];
    var q4 := ["world", "foo", "baz"];
    var q5 := ["foo", "baz"];
    var t0: Table := map[];
    var t1 := t0[hw := [Word("foo")]];
    var t2 := t1[wf := [Word("bar")]];
    var t3 := t2[fb := [Word("world")]];
    var t4 := t3[bw := [Word("foo")]];
    var t5 := t4[wf := [Word("bar"), Word("baz")]];
    AddedFresh(t0, hw, Word("foo"));
    TransitionsStep(t0, q0, t1, q1);
    AddedFresh(t1, wf, Word("bar"));
    TransitionsStep(t1, q1, t2, q2);
    AddedFresh(t2, fb, Word("world"));
    TransitionsStep(t2, q2, t3, q3);
    AddedFresh(t3, bw, Word("foo"));
    TransitionsStep(t3, q3, t4, q4);
    AddedExisting(t4, wf, Word("baz"));
    assert t4[wf] + [Word("baz")] == [Word("bar"), Word("baz")];
    TransitionsStep(t4, q4, t5, q5);
    assert LastPair(q0) == fz;
    AddedFresh(t5, fz, End);
  }

  /** "x\n" passes the two-piece check: its second piece is empty. */
  lemma TrailingNewlineAccepted()
    ensures Pieces("x\n") == ["x", ""]
    ensures var t := ChainsOf(Retained(Pieces("x\n")));
      t.Keys == {Bigram("x", "")} && t[Bigram("x", "")] == [End]
  {
    var ws := ["x", ""];
    assert Unwords(ws) == "x ";
    assert CString("x\n") == "x\n";
    assert SplitAll("\n") == ["", ""];
    assert SplitAll("x\n") == ["x", ""] by {
      var rest := SplitAll("\n");
      assert "x\n"[1..] == "\n" && ['x'] + rest[0] == "x" && rest[1..] == [""];
    }
    assert Pieces("x\n") == ws;
    assert Retained(ws) == ws by {
      assert ws[2..] == [];
    }
    assert LastPair(ws) == Bigram("x", "");
    AddedFresh(map[], Bigram("x", ""), End);
  }

  /** A single word is refused. */
  lemma LonelyRefused()
    ensures |Pieces("lonely")| < 2
  {
    WordRefused("lonely");
  }

  // ---------------------------------------------------------------------
  // makeChains itself.
  // ---------------------------------------------------------------------

  /** The rest of the loop of markov.c:123-139 from table `t`, window
   *  (a, b) and the pieces still to read: an empty piece is skipped, any
   *  other is appended under the window, which then slides over it, and
   *  End goes under the final window. */
  function Chained(t: Table, a: string, b: string, rest: seq<string>): (r: Table)
    ensures Bigram(a, b) in r
    ensures forall k | k in t :: k in r && t[k] <= r[k]
    decreases |rest|
  {
    if rest == [] then Added(t, Bigram(a, b), End)
    else if rest[0] == "" then Chained(t, a, b, rest[1..])
    else Chained(Added(t, Bigram(a, b), Word(rest[0])), b, rest[0], rest[1..])
  }

  /** The loop computes the table of the kept words: (a, b) followed by the
   *  non-empty pieces of `rest`. */
  lemma {:induction false} ChainedIsChainsOf(t: Table, a: string, b: string, rest: seq<string>)
    ensures Chained(t, a, b, rest)
         == Added(Transitions(t, [a, b] + NonEmpty(rest)), LastPair([a, b] + NonEmpty(rest)), End)
    decreases |rest|
  {
    if rest == [] {
      assert [a, b] + NonEmpty(rest) == [a, b];
    } else if rest[0] == "" {
      ChainedIsChainsOf(t, a, b, rest[1..]);
    } else {
      var r := rest[0];
      var t' := Added(t, Bigram(a, b), Word(r));
      ChainedIsChainsOf(t', b, r, rest[1..]);
      var ws := [a, b] + NonEmpty(rest);
      var tail := [b, r] + NonEmpty(rest[1..]);
      assert ws == [a, b, r] + NonEmpty(rest[1..]);
      assert ws[1..] == tail;
      TransitionsStep(t, ws, t', tail);
      assert LastPair(ws) == LastPair(tail);
    }
  }

  /** makeChains (markov.c:103-142): NULL when the split gives fewer than two
   *  pieces, otherwise the table of the kept words with the End sentinel. */
  method MakeChains(text: string) returns (t: ChainTable?)
    ensures t == null <==> |Pieces(text)| < 2
    ensures t != null ==> fresh(t) && t.chains == ChainsOf(Retained(Pieces(text)))
  {
    var words := Pieces(text);
    if |words| < 2 {
      return null;
    }
    t := new ChainTable();
    var first, second := words[0], words[1];
    ghost var goal := Chained(map[], first, second, words[2..]);
    for i := 2 to |words|
      invariant Chained(t.chains, first, second, words[i..]) == goal
    {
      var follows := words[i];
      assert words[i..][1..] == words[i + 1..];
      if follows == "" {
        continue;
      }
      t.AddWordToChain(first, second, Word(follows));
      first, second := second, follows;
    }
    assert words[|words|..] == [];
    t.AddWordToChain(first, second, End);
    ChainedIsChainsOf(map[], words[0], words[1], words[2..]);
    assert words[..2] == [words[0], words[1]];
  }
}
