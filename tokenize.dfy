/**
 * Splitting the input text into pieces, as markov.c:112 does with
 * g_strsplit_set(in_string, " \n", -1).
 *
 * The C function sees its argument as a NUL-terminated string, splits at
 * EVERY single space or newline (two delimiters in a row give an empty
 * piece), keeps no limit on the number of pieces, and returns an empty
 * vector for the empty string.
 */
module Tokenize {

  /** The two delimiter characters of markov.c:112. */
  predicate IsDelimiter(c: char) {
    c == ' ' || c == '\n'
  }

  /** The characters a `gchar *` stands for: everything before the first NUL. */
  function CString(s: string): (r: string)
    ensures r <= s
    ensures '\0' !in r
    ensures |r| < |s| ==> s[|r|] == '\0'
  {
    if s == [] || s[0] == '\0' then [] else [s[0]] + CString(s[1..])
  }

  /** The delimiters of `s`, in order: the separators between its pieces. */
  function Delimiters(s: string): (ds: string)
    ensures forall c :: c in ds <==> c in s && IsDelimiter(c)
  {
    if s == [] then []
    else if IsDelimiter(s[0]) then [s[0]] + Delimiters(s[1..])
    else Delimiters(s[1..])
  }

  /** Splitting a string at every delimiter; always at least one piece. */
  function SplitAll(s: string): (pieces: seq<string>)
    ensures |pieces| >= 1
  {
    if s == [] then [""]
    else if IsDelimiter(s[0]) then [""] + SplitAll(s[1..])
    else
      var rest := SplitAll(s[1..]);
      [[s[0]] + rest[0]] + rest[1..]
  }

  /** The pieces g_strsplit_set(text, " \n", -1) returns: none for the empty
   *  C string, otherwise the delimiter-free pieces that, rejoined with the
   *  delimiters, give back the C string. */
  function Pieces(text: string): (r: seq<string>)
    ensures r == [] <==> CString(text) == []
    ensures r != [] ==> |r| == |Delimiters(CString(text))| + 1
                        && Join(r, Delimiters(CString(text))) == CString(text)
    ensures forall p, c | p in r && c in p :: !IsDelimiter(c)
  {
    var s := CString(text);
    if s == [] then []
    else
      SplitAllJoin(s);
      SplitAllClean(s);
      SplitAll(s)
  }

  /** Gluing pieces back together with the delimiters that separated them. */
  function Join(pieces: seq<string>, ds: string): string
    requires |pieces| == |ds| + 1
  {
    if ds == [] then pieces[0] else pieces[0] + [ds[0]] + Join(pieces[1..], ds[1..])
  }

  /** No piece contains a delimiter. */
  lemma {:induction false} SplitAllClean(s: string)
    ensures forall p, c | p in SplitAll(s) && c in p :: !IsDelimiter(c)
  {
    if s != [] {
      SplitAllClean(s[1..]);
      var rest := SplitAll(s[1..]);
      if !IsDelimiter(s[0]) {
        assert forall p | p in rest[1..] :: p in rest;
        assert forall c | c in [s[0]] + rest[0] :: c == s[0] || c in rest[0];
      }
    }
  }

  /** There is one more piece than there are delimiters, and joining the
   *  pieces with those delimiters gives back the string that was split. */
  lemma {:induction false} SplitAllJoin(s: string)
    ensures |SplitAll(s)| == |Delimiters(s)| + 1
    ensures Join(SplitAll(s), Delimiters(s)) == s
  {
    if s != [] {
      SplitAllJoin(s[1..]);
      var rest, ds := SplitAll(s[1..]), Delimiters(s[1..]);
      if IsDelimiter(s[0]) {
        assert ([""] + rest)[1..] == rest;
        assert s == [s[0]] + s[1..];
      } else {
        var pieces := [[s[0]] + rest[0]] + rest[1..];
        assert pieces[1..] == rest[1..];
        if ds == [] {
          assert s == [s[0]] + s[1..];
        } else {
          assert Join(rest, ds) == rest[0] + [ds[0]] + Join(rest[1..], ds[1..]);
          assert s == [s[0]] + s[1..];
        }
      }
    }
  }

  /** markov.c:115 refuses the input exactly when the split gives fewer than
   *  two pieces, which happens exactly when the C string has no space and
   *  no newline. Empty pieces count: "x\n" gives two pieces. */
  lemma PiecesTooFew(text: string)
    ensures |Pieces(text)| < 2 <==> forall c | c in CString(text) :: !IsDelimiter(c)
  {
    var s := CString(text);
    if s != [] {
      SplitAllJoin(s);
      if |Delimiters(s)| > 0 {
        assert Delimiters(s)[0] in Delimiters(s);
      }
    }
  }

  /** How many pieces the split gives. */
  lemma PiecesCount(text: string)
    ensures |Pieces(text)| == if CString(text) == [] then 0 else |Delimiters(CString(text))| + 1
  {
    if CString(text) != [] {
      SplitAllJoin(CString(text));
    }
  }

  /** A string without delimiters is one piece. */
  lemma {:induction false} SplitAllWord(w: string)
    requires forall c | c in w :: !IsDelimiter(c)
    ensures SplitAll(w) == [w]
  {
    if w != [] {
      SplitAllWord(w[1..]);
      assert [w[0]] + w[1..] == w;
    }
  }

  /** A word followed by a delimiter is split off as the first piece. */
  lemma {:induction false} SplitAllFirst(w: string, d: char, rest: string)
    requires forall c | c in w :: !IsDelimiter(c)
    requires IsDelimiter(d)
    ensures SplitAll(w + [d] + rest) == [w] + SplitAll(rest)
  {
    var s := w + [d] + rest;
    if w == [] {
      assert s[1..] == rest;
    } else {
      assert s[1..] == w[1..] + [d] + rest;
      SplitAllFirst(w[1..], d, rest);
      assert [w[0]] + w[1..] == w;
    }
  }

  /** A string without NUL is its own C string. */
  lemma {:induction false} CStringNoNul(s: string)
    requires '\0' !in s
    ensures CString(s) == s
  {
    if s != [] {
      CStringNoNul(s[1..]);
      assert [s[0]] + s[1..] == s;
    }
  }

  /** Words joined by single spaces. */
  function Unwords(ws: seq<string>): string
    requires |ws| >= 1
  {
    if |ws| == 1 then ws[0] else ws[0] + [' '] + Unwords(ws[1..])
  }

  /** Splitting undoes joining with single spaces, for words that hold no
   *  delimiter (empty words included). */
  lemma {:induction false} SplitAllUnwords(ws: seq<string>)
    requires |ws| >= 1
    requires forall i, c | 0 <= i < |ws| && c in ws[i] :: !IsDelimiter(c)
    ensures SplitAll(Unwords(ws)) == ws
  {
    if |ws| == 1 {
      SplitAllWord(ws[0]);
    } else {
      SplitAllUnwords(ws[1..]);
      SplitAllFirst(ws[0], ' ', Unwords(ws[1..]));
      assert [ws[0]] + ws[1..] == ws;
    }
  }

  /** Joining NUL-free words with spaces gives a NUL-free string. */
  lemma {:induction false} UnwordsNoNul(ws: seq<string>)
    requires |ws| >= 1
    requires forall i | 0 <= i < |ws| :: '\0' !in ws[i]
    ensures '\0' !in Unwords(ws)
  {
    if |ws| > 1 {
      UnwordsNoNul(ws[1..]);
    }
  }

  /** At least two words without delimiters or NUL, joined by single
   *  spaces, are split back into exactly those words. */
  lemma PiecesOfUnwords(ws: seq<string>)
    requires |ws| >= 2
    requires forall i, c | 0 <= i < |ws| && c in ws[i] :: !IsDelimiter(c) && c != '\0'
    ensures Pieces(Unwords(ws)) == ws
  {
    UnwordsNoNul(ws);
    CStringNoNul(Unwords(ws));
    SplitAllUnwords(ws);
  }

  /** A text without space or newline is refused, whatever follows a NUL. */
  lemma WordRefused(w: string)
    requires forall c | c in w :: !IsDelimiter(c)
    ensures |Pieces(w)| < 2
  {
    PiecesTooFew(w);
  }
}
