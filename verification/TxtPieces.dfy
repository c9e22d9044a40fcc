/** The character-strings of a proof record: the text's UTF-8 octets in pieces of 255, each read back as text. */
module TxtPieces {
  import opened Rdata

  type Octets = seq<nat>

  /** The library's UTF-8: characters to octets, and `from_utf8_lossy`. */
  datatype Utf8 = Utf8(encode: char -> Octets, decode: Octets -> string)

  function Width(c: char): nat {
    if c as int < 0x80 then 1 else if c as int < 0x800 then 2 else if c as int < 0x1_0000 then 3 else 4
  }

  function Encode(u: Utf8, s: string): Octets {
    if s == [] then [] else Encode(u, s[..|s| - 1]) + u.encode(s[|s| - 1])
  }

  /** A character begins, or the text ends, after `n` octets. */
  ghost predicate Boundary(u: Utf8, s: string, n: nat) {
    exists i | 0 <= i <= |s| :: |Encode(u, s[..i])| == n
  }

  ghost predicate EncodesByWidth(u: Utf8) {
    forall c :: |u.encode(c)| == Width(c)
  }

  /** Encoded text is read as it is. Octets that are cut out of a text show replacement characters, so that reading two
      pieces yields no fewer characters than reading the whole, and more when the cut goes through a character. */
  ghost predicate Lawful(u: Utf8) {
    && EncodesByWidth(u)
    && (forall s :: u.decode(Encode(u, s)) == s)
    && (forall b, n: nat :: CutKeepsLength(u, b, n))
    && (forall s, n: nat :: CutShows(u, s, n))
  }

  ghost predicate CutKeepsLength(u: Utf8, b: Octets, n: nat) {
    n <= |b| ==> |u.decode(b)| <= |u.decode(b[..n])| + |u.decode(b[n..])|
  }

  ghost predicate CutShows(u: Utf8, s: string, n: nat) {
    n <= |Encode(u, s)| && !Boundary(u, s, n) ==>
      |s| < |u.decode(Encode(u, s)[..n])| + |u.decode(Encode(u, s)[n..])|
  }

  const CHUNK: nat := 255

  function Chunks(u: Utf8, b: Octets): (parts: seq<string>)
    ensures |parts| == (|b| + CHUNK - 1) / CHUNK
    decreases |b|
  {
    if b == [] then []
    else if |b| <= CHUNK then [u.decode(b)]
    else [u.decode(b[..CHUNK])] + Chunks(u, b[CHUNK..])
  }

  /** No character straddles a cut. */
  ghost predicate CutsBetween(u: Utf8, s: string) {
    forall k: nat | CHUNK * k <= |Encode(u, s)| :: Boundary(u, s, CHUNK * k)
  }

  lemma {:induction false} EncodeConcat(u: Utf8, a: string, b: string)
    ensures Encode(u, a + b) == Encode(u, a) + Encode(u, b)
  {
    if b == [] {
      assert a + b == a;
    } else {
      var init := b[..|b| - 1];
      EncodeConcat(u, a, init);
      assert (a + b)[..|a + b| - 1] == a + init;
    }
  }

  lemma EncodeSplit(u: Utf8, s: string, i: nat)
    requires i <= |s|
    ensures Encode(u, s) == Encode(u, s[..i]) + Encode(u, s[i..])
  {
    EncodeConcat(u, s[..i], s[i..]);
    assert s == s[..i] + s[i..];
  }

  lemma PrefixOfRest(u: Utf8, s: string, i: nat, j: nat)
    requires i <= j <= |s|
    ensures |Encode(u, s[..j])| == |Encode(u, s[..i])| + |Encode(u, s[i..][..j - i])|
  {
    EncodeSplit(u, s[..j], i);
    assert s[..j][..i] == s[..i] && s[..j][i..] == s[i..][..j - i];
  }

  /** Boundaries of a text from one of its characters on. */
  lemma BoundaryOfRest(u: Utf8, s: string, i: nat, n: nat)
    requires i <= |s|
    ensures Boundary(u, s[i..], n) <==> Boundary(u, s, |Encode(u, s[..i])| + n)
  {
    var rest := s[i..];
    if j :| 0 <= j <= |rest| && |Encode(u, rest[..j])| == n {
      PrefixOfRest(u, s, i, i + j);
    }
    if j :| 0 <= j <= |s| && |Encode(u, s[..j])| == |Encode(u, s[..i])| + n {
      if j >= i {
        PrefixOfRest(u, s, i, j);
      } else {
        PrefixOfRest(u, s, j, i);
        assert |Encode(u, rest[..0])| == n;
      }
    }
  }

  lemma CutsOfRest(u: Utf8, s: string, i: nat)
    requires i <= |s| && |Encode(u, s[..i])| == CHUNK
    ensures CutsBetween(u, s) <==> CutsBetween(u, s[i..])
  {
    EncodeSplit(u, s, i);
    if CutsBetween(u, s) {
      forall k: nat | CHUNK * k <= |Encode(u, s[i..])| ensures Boundary(u, s[i..], CHUNK * k) {
        assert Boundary(u, s, CHUNK * (k + 1));
        BoundaryOfRest(u, s, i, CHUNK * k);
      }
    }
    if CutsBetween(u, s[i..]) {
      forall k: nat | CHUNK * k <= |Encode(u, s)| ensures Boundary(u, s, CHUNK * k) {
        if k == 0 {
          assert |Encode(u, s[..0])| == 0;
        } else {
          assert Boundary(u, s[i..], CHUNK * (k - 1));
          BoundaryOfRest(u, s, i, CHUNK * (k - 1));
        }
      }
    }
  }

  lemma ShortCuts(u: Utf8, s: string)
    requires |Encode(u, s)| <= CHUNK
    ensures CutsBetween(u, s)
  {
    forall k: nat | CHUNK * k <= |Encode(u, s)| ensures Boundary(u, s, CHUNK * k) {
      assert s[..0] == [] && s[..|s|] == s;
      assert |Encode(u, s[..0])| == 0 && |Encode(u, s[..|s|])| == |Encode(u, s)|;
    }
  }

  lemma JoinFirst(first: string, rest: seq<string>)
    ensures Join([first] + rest) == first + Join(rest)
  {
    assert ([first] + rest)[1..] == rest;
  }

  /** When a cut falls between characters, the pieces are those of the text before and after it. */
  lemma CleanCut(u: Utf8, s: string, i: nat)
    requires Lawful(u) && i <= |s| && |Encode(u, s[..i])| == CHUNK < |Encode(u, s)|
    ensures Encode(u, s)[..CHUNK] == Encode(u, s[..i]) && Encode(u, s)[CHUNK..] == Encode(u, s[i..])
    ensures Join(Chunks(u, Encode(u, s))) == s[..i] + Join(Chunks(u, Encode(u, s[i..])))
  {
    EncodeSplit(u, s, i);
    JoinFirst(s[..i], Chunks(u, Encode(u, s[i..])));
  }

  /** The pieces spell no fewer characters than the octets read at once. */
  lemma {:induction false} PiecesAreLonger(u: Utf8, b: Octets)
    requires Lawful(u)
    ensures |Join(Chunks(u, b))| >= |u.decode(b)|
    decreases |b|
  {
    if b == [] {
      assert Encode(u, []) == [];
    } else if |b| <= CHUNK {
      JoinFirst(u.decode(b), []);
      assert [u.decode(b)] + [] == [u.decode(b)];
    } else {
      assert CutKeepsLength(u, b, CHUNK);
      PiecesAreLonger(u, b[CHUNK..]);
      JoinFirst(u.decode(b[..CHUNK]), Chunks(u, b[CHUNK..]));
    }
  }

  /** A text is spelled by its pieces exactly when no character straddles a cut. */
  lemma {:induction false} PiecesSpellIff(u: Utf8, s: string)
    requires Lawful(u)
    ensures Join(Chunks(u, Encode(u, s))) == s <==> CutsBetween(u, s)
    decreases |s|
  {
    var b := Encode(u, s);
    if |b| <= CHUNK {
      ShortCuts(u, s);
      OnePiece(u, s);
    } else if i :| 0 <= i <= |s| && |Encode(u, s[..i])| == CHUNK {
      PiecesAfter(u, s, i);
    } else {
      assert !Boundary(u, s, CHUNK * 1) && CutShows(u, s, CHUNK);
      PiecesAreLonger(u, b[CHUNK..]);
      JoinFirst(u.decode(b[..CHUNK]), Chunks(u, b[CHUNK..]));
    }
  }

  lemma PiecesAfter(u: Utf8, s: string, i: nat)
    requires Lawful(u)
    requires i <= |s| && |Encode(u, s[..i])| == CHUNK < |Encode(u, s)|
    ensures Join(Chunks(u, Encode(u, s))) == s <==> CutsBetween(u, s)
    decreases |s|, 0
  {
    assert i > 0;
    CleanCut(u, s, i);
    CutsOfRest(u, s, i);
    PiecesSpellIff(u, s[i..]);
    assert s == s[..i] + s[i..];
    var joined := Join(Chunks(u, Encode(u, s[i..])));
    assert (s[..i] + joined)[i..] == joined;
  }

  lemma OnePiece(u: Utf8, s: string)
    requires Lawful(u) && |Encode(u, s)| <= CHUNK
    ensures Join(Chunks(u, Encode(u, s))) == s
  {
    if Encode(u, s) == [] {
      assert s == [];
    } else {
      JoinFirst(s, []);
      assert [s] + [] == [s] && s + [] == s;
    }
  }

  /** In particular, an ASCII text is always spelled. */
  lemma AsciiIsSpelled(u: Utf8, s: string)
    requires Lawful(u) && forall i | 0 <= i < |s| :: s[i] as int < 0x80
    ensures Join(Chunks(u, Encode(u, s))) == s
  {
    forall k: nat | CHUNK * k <= |Encode(u, s)| ensures Boundary(u, s, CHUNK * k) {
      AsciiLength(u, s);
      AsciiLength(u, s[..CHUNK * k]);
    }
    PiecesSpellIff(u, s);
  }

  lemma {:induction false} AsciiLength(u: Utf8, s: string)
    requires EncodesByWidth(u) && forall i | 0 <= i < |s| :: s[i] as int < 0x80
    ensures |Encode(u, s)| == |s|
  {
    if s != [] {
      AsciiLength(u, s[..|s| - 1]);
    }
  }

  /** 254 letters and a two-octet character. */
  function Straddler(): string {
    seq(254, _ => 'a') + ['\U{00E9}']
  }

  lemma StraddlerIsCut(u: Utf8)
    requires EncodesByWidth(u)
    ensures |Encode(u, Straddler())| == 256 && !Boundary(u, Straddler(), CHUNK)
  {
    var (letters, s) := (seq(254, _ => 'a'), Straddler());
    AsciiLength(u, letters);
    assert s[..254] == letters;
    forall i | 0 <= i <= |s| ensures |Encode(u, s[..i])| != CHUNK {
      if i < |s| {
        assert s[..i] == letters[..i];
        AsciiLength(u, letters[..i]);
      } else {
        assert s[..i] == s;
      }
    }
  }

  /** The cut falls inside the last character, and the pieces spell something else. */
  lemma StraddledIsNotSpelled(u: Utf8)
    requires Lawful(u)
    ensures Join(Chunks(u, Encode(u, Straddler()))) != Straddler()
  {
    StraddlerIsCut(u);
    assert !Boundary(u, Straddler(), CHUNK * 1);
    PiecesSpellIff(u, Straddler());
  }
}
