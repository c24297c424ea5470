/** The hashtag parser of the upload form: the free-text hashtag field is split
    on commas, every piece is trimmed and prefixed with '#', and the bare "#"
    left by an empty piece is dropped. Splitting and trimming follow the
    JavaScript built-ins String.prototype.split (with a one-character
    separator) and String.prototype.trim. */
module Hashtags {

  /** The code points String.prototype.trim removes: the ECMAScript WhiteSpace
      production (tab, vertical tab, form feed, space, no-break space, the
      byte-order mark and the Unicode space separators) and the LineTerminator
      production (line feed, carriage return, line and paragraph separators). */
  predicate IsWhitespace(c: char) {
    c == '\t' || c == '\U{000B}' || c == '\U{000C}' || c == ' ' || c == '\U{00A0}' || c == '\U{FEFF}'
    || c == '\n' || c == '\r' || c == '\U{2028}' || c == '\U{2029}'
    || c == '\U{1680}' || ('\U{2000}' <= c <= '\U{200A}') || c == '\U{202F}' || c == '\U{205F}'
    || c == '\U{3000}'
  }

  /** True when the string holds nothing but whitespace (the empty string too). */
  predicate IsBlank(s: string) {
    forall k :: 0 <= k < |s| ==> IsWhitespace(s[k])
  }

  /** The length of the longest all-whitespace prefix: the index of the first
      non-whitespace character, or the length when there is none. */
  function LeadingBlanks(s: string): (n: nat)
    ensures n <= |s|
    ensures forall k :: 0 <= k < n ==> IsWhitespace(s[k])
    ensures n < |s| ==> !IsWhitespace(s[n])
  {
    if |s| > 0 && IsWhitespace(s[0]) then 1 + LeadingBlanks(s[1..]) else 0
  }

  /** Where the longest all-whitespace suffix begins: one past the last
      non-whitespace character, or 0 when there is none. */
  function TrailingStart(s: string): (n: nat)
    ensures n <= |s|
    ensures forall k :: n <= k < |s| ==> IsWhitespace(s[k])
    ensures n > 0 ==> !IsWhitespace(s[n - 1])
  {
    if |s| > 0 && IsWhitespace(s[|s| - 1]) then TrailingStart(s[..|s| - 1]) else |s|
  }

  /** String.prototype.trim: whitespace removed from both ends. The result is
      empty exactly when the input is blank; otherwise it starts and ends with
      a non-whitespace character; and it is the infix of the input left after
      cutting off a whitespace-only prefix and a whitespace-only suffix. */
  function Trim(s: string): (r: string)
    ensures r == [] <==> IsBlank(s)
    ensures r != [] ==> !IsWhitespace(r[0]) && !IsWhitespace(r[|r| - 1])
    ensures var i := LeadingBlanks(s);
      && i + |r| <= |s| && r == s[i..i + |r|]
      && forall k :: i + |r| <= k < |s| ==> IsWhitespace(s[k])
  {
    var i := LeadingBlanks(s);
    var j := TrailingStart(s);
    if i < j then s[i..j] else []
  }

  /** Array.prototype.join with a one-character separator. The page never
      joins; this is the inverse against which `Split` is proved. */
  function Join(pieces: seq<string>, sep: char): string
    requires |pieces| >= 1
  {
    if |pieces| == 1 then pieces[0] else pieces[0] + [sep] + Join(pieces[1..], sep)
  }

  /** String.prototype.split with a one-character separator: the maximal
      separator-free runs of the input, in order, including the empty runs
      before, between and after separators ("" gives [""], "a,,b" gives
      ["a", "", "b"]). */
  function Split(s: string, sep: char): (pieces: seq<string>)
    ensures |pieces| >= 1
    ensures forall p :: p in pieces ==> sep !in p
  {
    if |s| == 0 then [""]
    else
      var rest := Split(s[1..], sep);
      if s[0] == sep then [""] + rest
      else [[s[0]] + rest[0]] + rest[1..]
  }

  /** There is exactly one piece more than there are separators. */
  lemma {:induction false} SplitCount(s: string, sep: char)
    ensures |Split(s, sep)| == multiset(s)[sep] + 1
  {
    if |s| > 0 {
      SplitCount(s[1..], sep);
      assert s == [s[0]] + s[1..];
    }
  }

  /** Joining the pieces of a split with the separator gives back the input. */
  lemma {:induction false} SplitJoin(s: string, sep: char)
    ensures Join(Split(s, sep), sep) == s
  {
    if |s| > 0 {
      var rest := Split(s[1..], sep);
      var pieces := Split(s, sep);
      SplitJoin(s[1..], sep);
      assert Join(rest, sep) == s[1..];
      if s[0] != sep {
        assert pieces == [[s[0]] + rest[0]] + rest[1..];
        if |rest| == 1 {
          assert Join(pieces, sep) == [s[0]] + rest[0];
        } else {
          assert pieces[1..] == rest[1..];
          calc {
            Join(pieces, sep);
            ([s[0]] + rest[0]) + [sep] + Join(rest[1..], sep);
            [s[0]] + (rest[0] + [sep] + Join(rest[1..], sep));
            [s[0]] + Join(rest, sep);
          }
        }
      } else {
        assert pieces == [""] + rest;
        assert pieces[1..] == rest;
        assert Join(pieces, sep) == "" + [sep] + Join(rest, sep);
      }
      assert s == [s[0]] + s[1..];
    }
  }

  /** Splitting a separator-free prefix followed by more text: the prefix is
      glued onto the first piece of the rest. */
  lemma {:induction false} SplitPrefix(a: string, t: string, sep: char)
    requires sep !in a
    ensures Split(a + t, sep) == [a + Split(t, sep)[0]] + Split(t, sep)[1..]
  {
    var rest := Split(t, sep);
    if |a| > 0 {
      SplitPrefix(a[1..], t, sep);
      assert a[0] in a && a[0] != sep;
      assert (a + t)[0] == a[0] && (a + t)[1..] == a[1..] + t;
      assert [a[0]] + (a[1..] + rest[0]) == a + rest[0];
    } else {
      assert a + t == t && a + rest[0] == rest[0];
      assert rest == [rest[0]] + rest[1..];
    }
  }

  /** Split is the inverse of Join on separator-free pieces: a string has
      exactly one decomposition into separator-free pieces. */
  lemma {:induction false} JoinSplit(pieces: seq<string>, sep: char)
    requires |pieces| >= 1
    requires forall p :: p in pieces ==> sep !in p
    ensures Split(Join(pieces, sep), sep) == pieces
  {
    var a := pieces[0];
    if |pieces| == 1 {
      SplitPrefix(a, "", sep);
      assert a + "" == a;
    } else {
      var b := Join(pieces[1..], sep);
      JoinSplit(pieces[1..], sep);
      SplitPrefix(a, [sep] + b, sep);
      assert a + [sep] + b == a + ([sep] + b);
      assert ([sep] + b)[1..] == b;
      assert Split([sep] + b, sep) == [""] + pieces[1..];
      assert a + "" == a;
    }
  }

  /** Every piece of a split is blank exactly when the input consists of
      separators and whitespace only. */
  lemma {:induction false} SplitBlank(s: string, sep: char)
    ensures AllBlank(Split(s, sep)) <==> SeparatorsAndBlanks(s, sep)
  {
    if |s| > 0 {
      SplitBlank(s[1..], sep);
      var rest := Split(s[1..], sep);
      var pieces := Split(s, sep);
      assert s == [s[0]] + s[1..];
      SeparatorsAndBlanksCons(s[0], s[1..], sep);
      if s[0] != sep {
        var first := [s[0]] + rest[0];
        assert pieces == [first] + rest[1..];
        assert rest == [rest[0]] + rest[1..];
        BlankCons(s[0], rest[0]);
        AllBlankCons(first, rest[1..]);
        AllBlankCons(rest[0], rest[1..]);
      } else {
        assert pieces == [""] + rest;
        AllBlankCons("", rest);
      }
    }
  }

  lemma BlankCons(c: char, s: string)
    ensures IsBlank([c] + s) <==> IsWhitespace(c) && IsBlank(s)
  {
    var t := [c] + s;
    if IsWhitespace(c) && IsBlank(s) {
      forall k | 0 <= k < |t| ensures IsWhitespace(t[k]) {
        if k > 0 { assert t[k] == s[k - 1]; }
      }
    }
    if IsBlank(t) {
      assert IsWhitespace(t[0]);
      forall k | 0 <= k < |s| ensures IsWhitespace(s[k]) {
        assert s[k] == t[k + 1];
      }
    }
  }

  lemma AllBlankCons(p: string, ps: seq<string>)
    ensures AllBlank([p] + ps) <==> IsBlank(p) && AllBlank(ps)
  {
    var t := [p] + ps;
    if IsBlank(p) && AllBlank(ps) {
      forall k | 0 <= k < |t| ensures IsBlank(t[k]) {
        if k > 0 { assert t[k] == ps[k - 1]; }
      }
    }
    if AllBlank(t) {
      assert IsBlank(t[0]);
      forall k | 0 <= k < |ps| ensures IsBlank(ps[k]) {
        assert ps[k] == t[k + 1];
      }
    }
  }

  lemma SeparatorsAndBlanksCons(c: char, s: string, sep: char)
    ensures SeparatorsAndBlanks([c] + s, sep) <==> (c == sep || IsWhitespace(c)) && SeparatorsAndBlanks(s, sep)
  {
    var t := [c] + s;
    if (c == sep || IsWhitespace(c)) && SeparatorsAndBlanks(s, sep) {
      forall k | 0 <= k < |t| ensures t[k] == sep || IsWhitespace(t[k]) {
        if k > 0 { assert t[k] == s[k - 1]; }
      }
    }
    if SeparatorsAndBlanks(t, sep) {
      assert t[0] == c;
      forall k | 0 <= k < |s| ensures s[k] == sep || IsWhitespace(s[k]) {
        assert s[k] == t[k + 1];
      }
    }
  }

  /** Every string of the list is blank. */
  predicate AllBlank(pieces: seq<string>) {
    forall j :: 0 <= j < |pieces| ==> IsBlank(pieces[j])
  }

  /** The string holds nothing but separators and whitespace. */
  predicate SeparatorsAndBlanks(s: string, sep: char) {
    forall k :: 0 <= k < |s| ==> s[k] == sep || IsWhitespace(s[k])
  }

  /** The map step: the trimmed piece with '#' in front. It is the bare "#"
      exactly when the piece is blank; otherwise the character after the '#'
      and the last character are not whitespace. */
  function Tag(piece: string): (t: string)
    ensures |t| >= 1 && t[0] == '#'
    ensures t == "#" <==> IsBlank(piece)
    ensures t != "#" ==> |t| >= 2 && !IsWhitespace(t[1]) && !IsWhitespace(t[|t| - 1])
  {
    "#" + Trim(piece)
  }

  /** Apart from the '#', a tag holds only characters of its piece. */
  lemma TagChars(piece: string, c: char)
    requires c != '#' && c !in piece
    ensures c !in Tag(piece)
  {
  }

  /** The map step over all pieces, in order: one tag per piece, and the
      k-th tag is the bare "#" exactly when the k-th piece is blank. */
  function MapTags(pieces: seq<string>): (tags: seq<string>)
    ensures |tags| == |pieces|
    ensures forall k :: 0 <= k < |pieces| ==> (tags[k] == "#" <==> IsBlank(pieces[k]))
  {
    seq(|pieces|, k requires 0 <= k < |pieces| => Tag(pieces[k]))
  }

  /** The filter step: keeps the tags that are not the bare "#", in order. */
  function DropBare(tags: seq<string>): (r: seq<string>)
    ensures |r| <= |tags|
  {
    if tags == [] then []
    else
      var init := DropBare(tags[..|tags| - 1]);
      var last := tags[|tags| - 1];
      assert tags == tags[..|tags| - 1] + [last];
      if last != "#" then init + [last] else init
  }

  /** The tag list built from the free-text field: split on ',', map every
      piece to '#' plus the trimmed piece, drop the bare "#". Every tag starts
      with '#' and is not the bare "#"; what follows the '#' neither starts nor
      ends with whitespace and holds no comma; and there is at most one tag
      per comma-separated piece. */
  function ParseHashtags(text: string): (tags: seq<string>)
    ensures forall t :: t in tags ==> |t| >= 2 && t[0] == '#' && t != "#"
    ensures forall t :: t in tags ==> !IsWhitespace(t[1]) && !IsWhitespace(t[|t| - 1]) && ',' !in t
    ensures |tags| <= multiset(text)[','] + 1
  {
    var pieces := Split(text, ',');
    KeptTagsShape(pieces, ',');
    SplitCount(text, ',');
    DropBare(MapTags(pieces))
  }

  /** The shape of a kept tag: '#' followed by text that neither starts nor
      ends with whitespace and holds no separator. */
  predicate WellFormedTag(t: string, sep: char) {
    |t| >= 2 && t[0] == '#' && t != "#" && !IsWhitespace(t[1]) && !IsWhitespace(t[|t| - 1]) && sep !in t
  }

  /** The tag of a non-blank, separator-free piece is well formed. */
  lemma TagShape(piece: string, sep: char)
    requires sep != '#' && sep !in piece && !IsBlank(piece)
    ensures WellFormedTag(Tag(piece), sep)
  {
    TagChars(piece, sep);
  }

  /** The shape of every kept tag, for pieces free of a separator. */
  lemma KeptTagsShape(pieces: seq<string>, sep: char)
    requires sep != '#'
    requires forall p :: p in pieces ==> sep !in p
    ensures forall k :: 0 <= k < |DropBare(MapTags(pieces))| ==> WellFormedTag(DropBare(MapTags(pieces))[k], sep)
  {
    var mapped := MapTags(pieces);
    var tags := DropBare(mapped);
    var idx := Kept(mapped);
    DropBareKept(mapped);
    forall k | 0 <= k < |tags|
      ensures WellFormedTag(tags[k], sep)
    {
      var j := idx[k];
      assert mapped[j] == Tag(pieces[j]) != "#";
      assert pieces[j] in pieces;
      TagShape(pieces[j], sep);
    }
  }

  /** The tag list is empty exactly when the field is made of commas and
      whitespace only (the empty field included). */
  lemma {:induction false} ParseHashtagsEmpty(text: string)
    ensures ParseHashtags(text) == [] <==> SeparatorsAndBlanks(text, ',')
  {
    var pieces := Split(text, ',');
    var mapped := MapTags(pieces);
    var idx := Kept(mapped);
    DropBareKept(mapped);
    SplitBlank(text, ',');
    if idx == [] {
      forall j | 0 <= j < |pieces| ensures IsBlank(pieces[j]) {
        if !IsBlank(pieces[j]) {
          KeptComplete(mapped, j);
          assert false;
        }
      }
    } else {
      assert !IsBlank(pieces[idx[0]]);
    }
  }

  /** Indices of the tags other than the bare "#", in increasing order. */
  function Kept(tags: seq<string>): (idx: seq<nat>)
    ensures |idx| <= |tags|
    ensures forall k :: 0 <= k < |idx| ==> idx[k] < |tags| && tags[idx[k]] != "#"
    ensures forall k, l :: 0 <= k < l < |idx| ==> idx[k] < idx[l]
  {
    if tags == [] then []
    else
      var n := |tags| - 1;
      var init := Kept(tags[..n]);
      if tags[n] != "#" then init + [n] else init
  }

  /** Every tag other than the bare "#" has its index listed. */
  lemma {:induction false} KeptComplete(tags: seq<string>, j: nat)
    requires j < |tags| && tags[j] != "#"
    ensures j in Kept(tags)
  {
    var n := |tags| - 1;
    if j < n {
      KeptComplete(tags[..n], j);
    }
  }

  /** The filter keeps exactly the listed tags, in order. */
  lemma {:induction false} DropBareKept(tags: seq<string>)
    ensures |DropBare(tags)| == |Kept(tags)|
    ensures forall k :: 0 <= k < |Kept(tags)| ==> DropBare(tags)[k] == tags[Kept(tags)[k]]
  {
    if tags != [] {
      var n := |tags| - 1;
      var init := tags[..n];
      DropBareKept(init);
      assert forall k :: 0 <= k < |Kept(init)| ==> tags[Kept(init)[k]] == init[Kept(init)[k]];
    }
  }

  /** The tags keep the order of the pieces and there is one tag per
      non-blank piece: the listed indices are exactly those of the non-blank
      pieces, and the k-th tag is '#' plus the trimmed piece at the k-th
      index. */
  lemma {:induction false} ParseHashtagsFollowsPieces(text: string)
    ensures var pieces := Split(text, ',');
      var idx := Kept(MapTags(pieces));
      var tags := ParseHashtags(text);
      && |tags| == |idx|
      && (forall k :: 0 <= k < |tags| ==>
            idx[k] < |pieces| && !IsBlank(pieces[idx[k]]) && tags[k] == "#" + Trim(pieces[idx[k]]))
      && (forall k, l :: 0 <= k < l < |idx| ==> idx[k] < idx[l])
      && (forall j :: 0 <= j < |pieces| && !IsBlank(pieces[j]) ==> j in idx)
  {
    var pieces := Split(text, ',');
    var mapped := MapTags(pieces);
    DropBareKept(mapped);
    forall j | 0 <= j < |pieces| && !IsBlank(pieces[j])
      ensures j in Kept(mapped)
    {
      KeptComplete(mapped, j);
    }
  }

  /** A worked case: the field "a, b" gives ["#a", "#b"]. */
  lemma {:induction false} ParseHashtagsExample()
    ensures ParseHashtags("a, b") == ["#a", "#b"]
  {
    assert Split("a, b", ',') == ["a", " b"] by { ExampleSplit(); }
    assert MapTags(["a", " b"]) == ["#a", "#b"] by { ExampleTags(); }
    var mapped := MapTags(["a", " b"]);
    assert mapped[..1] == ["#a"] && ["#a"][..0] == [];
    assert DropBare(["#a"]) == ["#a"];
    assert DropBare(mapped) == ["#a", "#b"];
  }

  lemma ExampleSplit()
    ensures Split("a, b", ',') == ["a", " b"]
  {
    assert "a, b"[0] == 'a' && "a, b"[1..] == ", b";
    assert ", b"[0] == ',' && ", b"[1..] == " b";
    assert " b"[0] == ' ' && " b"[1..] == "b";
    assert "b"[0] == 'b' && "b"[1..] == "";
    assert Split("", ',') == [""];
    assert ['b'] + "" == "b";
    assert Split("b", ',') == ["b"];
    assert [' '] + "b" == " b";
    assert Split(" b", ',') == [" b"];
    assert Split(", b", ',') == ["", " b"];
    assert ['a'] + "" == "a" && ["", " b"][1..] == [" b"];
  }

  lemma ExampleTags()
    ensures MapTags(["a", " b"]) == ["#a", "#b"]
  {
    assert Trim("a") == "a";
    assert " b"[1..] == "b";
    assert LeadingBlanks("b") == 0 && LeadingBlanks(" b") == 1;
    assert TrailingStart(" b") == 2;
    assert Trim(" b") == " b"[1..2] == "b";
    assert Tag("a") == "#a" && Tag(" b") == "#b";
    var mapped := MapTags(["a", " b"]);
    assert mapped[0] == "#a" && mapped[1] == "#b";
  }
}
