/**
 * Dotted rendering of an address: the decimal text of each byte joined by
 * ".", as `bytesToIP` builds it, and a parser that reads such text back.
 */
module DottedAddress {
  import opened Wrappers
  import Decimal

  const Dot: char := '.'

  /** Python's `".".join(parts)`. */
  function Join(parts: seq<string>): (s: string)
    ensures |parts| >= 1 ==> parts[0] <= s
  {
    if |parts| == 0 then ""
    else if |parts| == 1 then parts[0]
    else parts[0] + [Dot] + Join(parts[1..])
  }

  /** The pieces of `s` between dots, in order; every string has at least one piece. */
  function Split(s: string): (parts: seq<string>)
    ensures |parts| >= 1
  {
    if s == [] then [""]
    else
      var rest := Split(s[1..]);
      if s[0] == Dot then [""] + rest
      else [[s[0]] + rest[0]] + rest[1..]
  }

  /** The decimal text of every byte, in order (the generator in `bytesToIP`). */
  function Renderings(data: seq<byte>): (parts: seq<string>)
  {
    seq(|data|, i requires 0 <= i < |data| => Decimal.Render(data[i] as nat))
  }

  /**
   * The dotted text of a byte string, e.g. [10, 0, 0, 1] gives "10.0.0.1";
   * the empty string gives "". Written byte by byte; `BytesToIPIsJoin`
   * proves it equal to the join of the renderings.
   */
  function BytesToIP(data: seq<byte>): string
  {
    if |data| == 0 then ""
    else if |data| == 1 then Decimal.Render(data[0] as nat)
    else Decimal.Render(data[0] as nat) + [Dot] + BytesToIP(data[1..])
  }

  /** A piece that `str` can produce for one byte. */
  predicate IsByteText(t: string) {
    Decimal.Canonical(t) && Decimal.Value(t) < 256
  }

  function ByteOfText(t: string): byte
    requires IsByteText(t)
  {
    Decimal.Value(t) as byte
  }

  /** Reads dotted text back into bytes; None when some piece is not the rendering of a byte. */
  function ParseIP(s: string): Option<seq<byte>>
  {
    if s == "" then Some([]) else ParsePieces(Split(s))
  }

  /** The bytes the pieces denote, or None when some piece is not the rendering of a byte. */
  function ParsePieces(parts: seq<string>): Option<seq<byte>>
  {
    if forall i :: 0 <= i < |parts| ==> IsByteText(parts[i])
    then Some(seq(|parts|, i requires 0 <= i < |parts| && IsByteText(parts[i]) => ByteOfText(parts[i])))
    else None
  }

  lemma {:induction false} SplitNoDot(p: string)
    requires Dot !in p
    ensures Split(p) == [p]
  {
    if p != [] {
      SplitNoDot(p[1..]);
      assert p == [p[0]] + p[1..];
    }
  }

  lemma {:induction false} SplitDotted(p: string, t: string)
    requires Dot !in p
    ensures Split(p + [Dot] + t) == [p] + Split(t)
  {
    if p == [] {
      assert (p + [Dot] + t)[1..] == t;
    } else {
      SplitDotted(p[1..], t);
      assert (p + [Dot] + t)[1..] == p[1..] + [Dot] + t;
      assert p == [p[0]] + p[1..];
    }
  }

  /** Splitting a join of dot-free pieces gives the pieces back. */
  lemma {:induction false} SplitJoin(parts: seq<string>)
    requires |parts| >= 1
    requires forall i :: 0 <= i < |parts| ==> Dot !in parts[i]
    ensures Split(Join(parts)) == parts
  {
    if |parts| == 1 {
      SplitNoDot(parts[0]);
    } else {
      assert forall i :: 0 <= i < |parts| - 1 ==> parts[1..][i] == parts[i + 1];
      SplitJoin(parts[1..]);
      SplitDotted(parts[0], Join(parts[1..]));
    }
  }

  /** There is one more piece than there are dots. */
  lemma {:induction false} SplitCountsDots(s: string)
    ensures |Split(s)| == multiset(s)[Dot] + 1
  {
    if s != [] {
      SplitCountsDots(s[1..]);
      assert s == [s[0]] + s[1..];
    }
  }

  lemma SplitCons(c: char, tail: string)
    ensures Split([c] + tail) ==
      if c == Dot then [""] + Split(tail) else [[c] + Split(tail)[0]] + Split(tail)[1..]
  {
    assert ([c] + tail)[1..] == tail;
  }

  lemma JoinCons(p: string, rest: seq<string>)
    requires |rest| >= 1
    ensures Join([p] + rest) == p + [Dot] + Join(rest)
  {
    assert ([p] + rest)[1..] == rest;
  }

  /** Prefixing the first piece with a character prefixes the joined text with it. */
  lemma {:induction false} JoinExtendHead(c: char, parts: seq<string>)
    requires |parts| >= 1
    ensures Join([[c] + parts[0]] + parts[1..]) == [c] + Join(parts)
  {
    if |parts| > 1 {
      JoinCons([c] + parts[0], parts[1..]);
      assert parts == [parts[0]] + parts[1..];
      JoinCons(parts[0], parts[1..]);
    }
  }

  /** Joining the pieces of any string with dots gives the string back. */
  lemma {:induction false} JoinSplit(s: string)
    ensures Join(Split(s)) == s
  {
    if s != [] {
      var c, tail := s[0], s[1..];
      assert s == [c] + tail;
      JoinSplit(tail);
      SplitCons(c, tail);
      if c == Dot {
        JoinCons("", Split(tail));
      } else {
        JoinExtendHead(c, Split(tail));
      }
    }
  }

  /** `bytesToIP` as written: `".".join(str(b) for b in data)`. */
  lemma {:induction false} BytesToIPIsJoin(data: seq<byte>)
    ensures BytesToIP(data) == Join(Renderings(data))
  {
    if |data| > 1 {
      BytesToIPIsJoin(data[1..]);
      assert Renderings(data)[1..] == Renderings(data[1..]);
    }
  }

  lemma DigitsHaveNoDot(t: string)
    requires Decimal.AllDigits(t)
    ensures Dot !in t
  {
  }

  /**
   * Shape of `bytesToIP` for a non-empty byte string: one piece per byte,
   * each the decimal text of that byte, separated by |data| - 1 dots.
   */
  lemma BytesToIPShape(data: seq<byte>)
    requires |data| >= 1
    ensures Split(BytesToIP(data)) == Renderings(data)
    ensures |Split(BytesToIP(data))| == |data|
    ensures multiset(BytesToIP(data))[Dot] == |data| - 1
    ensures forall i :: 0 <= i < |data| ==> Split(BytesToIP(data))[i] == Decimal.Render(data[i] as nat)
  {
    var parts := Renderings(data);
    forall i | 0 <= i < |parts| ensures Dot !in parts[i] {
      Decimal.RenderIsCanonical(data[i] as nat);
      DigitsHaveNoDot(parts[i]);
    }
    SplitJoin(parts);
    BytesToIPIsJoin(data);
    SplitCountsDots(BytesToIP(data));
  }

  lemma ParsePiecesOfRenderings(data: seq<byte>)
    ensures ParsePieces(Renderings(data)) == Some(data)
  {
    var parts := Renderings(data);
    forall i | 0 <= i < |parts|
      ensures IsByteText(parts[i]) && ByteOfText(parts[i]) == data[i]
    {
      Decimal.RenderIsCanonical(data[i] as nat);
      Decimal.ValueOfRender(data[i] as nat);
    }
    var r := seq(|parts|, i requires 0 <= i < |parts| && IsByteText(parts[i]) => ByteOfText(parts[i]));
    assert r == data;
  }

  /** Parsing what `bytesToIP` renders gives the bytes back. */
  lemma ParseBytesToIP(data: seq<byte>)
    ensures ParseIP(BytesToIP(data)) == Some(data)
  {
    if |data| > 0 {
      BytesToIPShape(data);
      assert BytesToIP(data) != "" by {
        Decimal.RenderIsCanonical(data[0] as nat);
        assert Decimal.Render(data[0] as nat) <= BytesToIP(data);
      }
      ParsePiecesOfRenderings(data);
    }
  }

  /** Whatever the parser accepts is exactly what `bytesToIP` renders for the parsed bytes. */
  lemma BytesToIPOfParse(s: string, data: seq<byte>)
    requires ParseIP(s) == Some(data)
    ensures BytesToIP(data) == s
  {
    if s != "" {
      var parts := Split(s);
      forall i | 0 <= i < |parts| ensures Renderings(data)[i] == parts[i] {
        Decimal.RenderOfValue(parts[i]);
      }
      assert Renderings(data) == parts;
      JoinSplit(s);
      BytesToIPIsJoin(data);
    }
  }

  /** The parser is an exact inverse: `s` parses to `data` iff `s` is the dotted text of `data`. */
  lemma ParseIPIffRendering(s: string, data: seq<byte>)
    ensures ParseIP(s) == Some(data) <==> BytesToIP(data) == s
  {
    if ParseIP(s) == Some(data) {
      BytesToIPOfParse(s, data);
    }
    if BytesToIP(data) == s {
      ParseBytesToIP(data);
    }
  }

  /** Two byte strings with the same dotted text are equal, so comparing texts compares addresses. */
  lemma BytesToIPInjective(a: seq<byte>, b: seq<byte>)
    requires BytesToIP(a) == BytesToIP(b)
    ensures a == b
  {
    ParseBytesToIP(a);
    ParseBytesToIP(b);
  }
}
