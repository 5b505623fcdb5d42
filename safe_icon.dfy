/**
  Icon lookup by name: a kebab-case name such as "check-circle" becomes the
  PascalCase key "CheckCircle" of the icon table, and a name the table lacks
  falls back to the "HelpCircle" icon. Upper-casing is modelled for ASCII
  letters only.
*/
module SafeIcon {
  import opened Wrappers

  const Separator: char := '-'
  /** Key of the icon used for names the table does not contain. */
  const FallbackKey: string := "HelpCircle"

  /** Upper-casing of one character, for ASCII letters. */
  function UpperAscii(c: char): (u: char)
    ensures 'a' <= c <= 'z' ==> u == "ABCDEFGHIJKLMNOPQRSTUVWXYZ"[c as int - 'a' as int]
    ensures !('a' <= c <= 'z') ==> u == c
    ensures (u == Separator) == (c == Separator)
  {
    if 'a' <= c <= 'z' then (c as int - 32) as char else c
  }

  /** Number of separators in a name. */
  function Hyphens(s: string): (n: nat)
    ensures n <= |s|
  {
    if s == [] then 0 else (if s[0] == Separator then 1 else 0) + Hyphens(s[1..])
  }

  /** Splitting on the separator: one more segment than separators, none containing one. */
  function Split(s: string): (parts: seq<string>)
    ensures |parts| == Hyphens(s) + 1
    ensures forall i :: 0 <= i < |parts| ==> Separator !in parts[i]
  {
    if s == [] then [[]]
    else
      var rest := Split(s[1..]);
      if s[0] == Separator then [[]] + rest
      else [[s[0]] + rest[0]] + rest[1..]
  }

  /** Joining segments with the separator between them. */
  function JoinWithSeparator(parts: seq<string>): string {
    if parts == [] then []
    else if |parts| == 1 then parts[0]
    else parts[0] + [Separator] + JoinWithSeparator(parts[1..])
  }

  /** Joining the segments back with the separator restores the name. */
  lemma {:induction false} JoinSplit(s: string)
    ensures JoinWithSeparator(Split(s)) == s
  {
    if s != [] {
      var rest := Split(s[1..]);
      JoinSplit(s[1..]);
      if s[0] == Separator {
        assert s == [Separator] + s[1..];
      } else if |rest| == 1 {
        assert s == [s[0]] + s[1..];
      } else {
        assert JoinWithSeparator(rest) == rest[0] + [Separator] + JoinWithSeparator(rest[1..]);
        assert s == [s[0]] + s[1..];
      }
    }
  }

  /** Splitting a join of separator-free segments gives the segments back. */
  lemma {:induction false} SplitJoin(parts: seq<string>)
    requires |parts| > 0
    requires forall i :: 0 <= i < |parts| ==> Separator !in parts[i]
    ensures Split(JoinWithSeparator(parts)) == parts
  {
    if |parts| == 1 {
      SplitSegment(parts[0], []);
      assert parts[0] + [] == parts[0];
      assert Split([]) == [[]];
      assert parts == [parts[0]];
    } else {
      SplitJoin(parts[1..]);
      var tail := JoinWithSeparator(parts[1..]);
      SplitSegment(parts[0], [Separator] + tail);
      assert ([Separator] + tail)[1..] == tail;
      assert Split([Separator] + tail) == [[]] + parts[1..];
      assert parts[0] + [Separator] + tail == parts[0] + ([Separator] + tail);
      assert parts[0] + [] == parts[0];
      assert parts == [parts[0]] + parts[1..];
    }
  }

  /** A separator-free prefix is glued onto the first segment of what follows. */
  lemma {:induction false} SplitSegment(w: string, s: string)
    requires Separator !in w
    ensures Split(w + s) == [w + Split(s)[0]] + Split(s)[1..]
  {
    if w != [] {
      SplitSegment(w[1..], s);
      assert (w + s)[1..] == w[1..] + s;
      assert (w + s)[0] == w[0] != Separator;
      var after := Split(s);
      var rest := Split(w[1..] + s);
      assert rest[0] == w[1..] + after[0] && rest[1..] == after[1..];
      assert [w[0]] + (w[1..] + after[0]) == w + after[0];
    } else {
      assert w + s == s;
      assert w + Split(s)[0] == Split(s)[0];
      assert Split(s) == [Split(s)[0]] + Split(s)[1..];
    }
  }

  /** A segment with its first character upper-cased and the rest kept. */
  function Capitalize(word: string): (r: string)
    ensures |r| == |word|
    ensures |word| > 0 ==> r[0] == UpperAscii(word[0]) && r[1..] == word[1..]
  {
    if word == [] then [] else [UpperAscii(word[0])] + word[1..]
  }

  /** Every segment capitalised, in order. */
  function CapitalizeAll(words: seq<string>): (r: seq<string>)
    ensures |r| == |words|
    ensures forall i :: 0 <= i < |words| ==> r[i] == Capitalize(words[i])
  {
    if words == [] then [] else [Capitalize(words[0])] + CapitalizeAll(words[1..])
  }

  /** The segments concatenated with nothing between them. */
  function Concat(words: seq<string>): string
  {
    if words == [] then [] else words[0] + Concat(words[1..])
  }

  /** Joining with nothing is one character shorter per gap than joining with the separator. */
  lemma {:induction false} ConcatLength(words: seq<string>)
    requires |words| > 0
    ensures |Concat(words)| + |words| - 1 == |JoinWithSeparator(words)|
  {
    if |words| > 1 {
      ConcatLength(words[1..]);
    }
  }

  /** Concatenating two lists of segments is concatenating their results. */
  lemma {:induction false} ConcatAppend(a: seq<string>, b: seq<string>)
    ensures Concat(a + b) == Concat(a) + Concat(b)
  {
    if a != [] {
      ConcatAppend(a[1..], b);
      assert (a + b)[1..] == a[1..] + b;
    } else {
      assert a + b == b;
    }
  }

  /**
    Reference definition, one character at a time: separators are dropped,
    and a character is upper-cased exactly when it starts a segment.
  */
  function PascalScan(s: string, atSegmentStart: bool): string {
    if s == [] then []
    else if s[0] == Separator then PascalScan(s[1..], true)
    else [if atSegmentStart then UpperAscii(s[0]) else s[0]] + PascalScan(s[1..], false)
  }

  /**
    The split/map/join chain equals the scan. The second conclusion is the
    same chain with the first segment left as it is, which is what the scan
    computes in the middle of a segment.
  */
  lemma {:induction false} ChainIsScan(s: string)
    ensures Concat(CapitalizeAll(Split(s))) == PascalScan(s, true)
    ensures Split(s)[0] + Concat(CapitalizeAll(Split(s)[1..])) == PascalScan(s, false)
  {
    if s != [] {
      var t := s[1..];
      var rest := Split(t);
      ChainIsScan(t);
      if s[0] == Separator {
        assert Split(s) == [[]] + rest;
        assert ([[]] + rest)[1..] == rest;
        var chain := CapitalizeAll([[]] + rest);
        assert chain == [[]] + CapitalizeAll(rest);
        assert chain[1..] == CapitalizeAll(rest);
        assert Concat(chain) == [] + Concat(CapitalizeAll(rest));
      } else {
        var head := [s[0]] + rest[0];
        assert Split(s) == [head] + rest[1..];
        assert ([head] + rest[1..])[1..] == rest[1..];
        assert head[1..] == rest[0];
        assert Capitalize(head) == [UpperAscii(s[0])] + rest[0];
        var tailChain := Concat(CapitalizeAll(rest[1..]));
        var chain := CapitalizeAll([head] + rest[1..]);
        assert chain == [Capitalize(head)] + CapitalizeAll(rest[1..]);
        assert chain[1..] == CapitalizeAll(rest[1..]);
        assert Concat(chain) == Capitalize(head) + tailChain;
        assert [UpperAscii(s[0])] + rest[0] + tailChain == [UpperAscii(s[0])] + (rest[0] + tailChain);
        assert head + tailChain == [s[0]] + (rest[0] + tailChain);
      }
    }
  }

  /** The scan drops exactly the separators and emits none. */
  lemma {:induction false} ScanShape(s: string, atSegmentStart: bool)
    ensures |PascalScan(s, atSegmentStart)| == |s| - Hyphens(s)
    ensures Separator !in PascalScan(s, atSegmentStart)
  {
    if s != [] {
      ScanShape(s[1..], false);
      ScanShape(s[1..], true);
    }
  }

  /** The icon key for a name: split, capitalise each segment, concatenate. */
  function ToPascalCase(name: string): (r: string)
    ensures r == PascalScan(name, true)
    ensures |r| == |name| - Hyphens(name)
    ensures Separator !in r
  {
    ChainIsScan(name);
    ScanShape(name, true);
    Concat(CapitalizeAll(Split(name)))
  }

  /** Whether the character at `i` opens a segment: it is first, or follows a separator. */
  predicate StartsSegment(s: string, i: nat, atSegmentStart: bool)
    requires i < |s|
  {
    if i == 0 then atSegmentStart else s[i - 1] == Separator
  }

  /**
    Each non-separator character of the input appears in the scan, shifted left
    by the separators before it, upper-cased exactly when it opens a segment.
  */
  lemma {:induction false} ScanAt(s: string, atSegmentStart: bool, i: nat)
    requires i < |s| && s[i] != Separator
    ensures Hyphens(s[..i]) <= i
    ensures i - Hyphens(s[..i]) < |PascalScan(s, atSegmentStart)|
    ensures PascalScan(s, atSegmentStart)[i - Hyphens(s[..i])]
         == if StartsSegment(s, i, atSegmentStart) then UpperAscii(s[i]) else s[i]
  {
    if i > 0 {
      var t := s[1..];
      assert s[..i][0] == s[0] && s[..i][1..] == t[..i - 1];
      if s[0] == Separator {
        ScanAt(t, true, i - 1);
      } else {
        ScanAt(t, false, i - 1);
      }
    }
  }

  /** The icon name rule in full, for every character of the name. */
  lemma PascalCaseAt(name: string, i: nat)
    requires i < |name| && name[i] != Separator
    ensures Hyphens(name[..i]) <= i
    ensures i - Hyphens(name[..i]) < |ToPascalCase(name)|
    ensures ToPascalCase(name)[i - Hyphens(name[..i])]
         == if i == 0 || name[i - 1] == Separator then UpperAscii(name[i]) else name[i]
  {
    ScanAt(name, true, i);
  }

  /**
    The icon for a name, or the fallback icon when the key is missing. `None`
    stands for a table that lacks the fallback as well, where the component
    keeps rendering its placeholder box.
  */
  function ResolveIcon<Icon>(icons: map<string, Icon>, name: string): (r: Option<Icon>)
    ensures ToPascalCase(name) in icons ==> r == Some(icons[ToPascalCase(name)])
    ensures ToPascalCase(name) !in icons && FallbackKey in icons ==> r == Some(icons[FallbackKey])
    ensures r == None <==> ToPascalCase(name) !in icons && FallbackKey !in icons
  {
    var key := ToPascalCase(name);
    if key in icons then Some(icons[key])
    else if FallbackKey in icons then Some(icons[FallbackKey])
    else None
  }

  /** With the fallback present every name resolves to some icon of the table. */
  lemma ResolveIconTotal<Icon>(icons: map<string, Icon>, name: string)
    requires FallbackKey in icons
    ensures ResolveIcon(icons, name).Some?
    ensures ResolveIcon(icons, name).value in icons.Values
  {
    var key := ToPascalCase(name);
    if key in icons {
      assert icons[key] in icons.Values;
    } else {
      assert icons[FallbackKey] in icons.Values;
    }
  }

  /** Two names used on the page, stepped through the scan. */
  lemma KnownNames()
    ensures ToPascalCase("map-pin") == "MapPin"
    ensures ToPascalCase("x") == "X"
  {
    assert UpperAscii('p') == 'P' && UpperAscii('m') == 'M' && UpperAscii('x') == 'X';
    assert PascalScan("pin", true) == "Pin";
    assert PascalScan("-pin", false) == "Pin";
    assert PascalScan("p-pin", false) == "pPin";
    assert PascalScan("ap-pin", false) == "apPin";
  }
}
