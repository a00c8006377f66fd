/**
 The append-only file of the durable replay store: one line per key, its percent-encoded text, a blank and its
 expiry in milliseconds.
 */
module ReplayFile {
  import opened Wrappers
  import opened Unicode
  import opened Decimal
  import UriComponent

  datatype Entry = Entry(key: string, expiresAt: int)

  function Line(e: Entry): string
  {
    UriComponent.Encode(e.key) + (" " + (Print(e.expiresAt) + "\n"))
  }

  function FileOf(log: seq<Entry>): string
  {
    if log == [] then "" else Line(log[0]) + FileOf(log[1..])
  }

  /** `s.split(sep)` for a one-character separator. */
  function Split(s: string, sep: char): (parts: seq<string>)
    ensures parts != []
  {
    if s == "" then [""]
    else if s[0] == sep then [""] + Split(s[1..], sep)
    else
      var parts := Split(s[1..], sep);
      [[s[0]] + parts[0]] + parts[1..]
  }

  /** What one line says: nothing when it is malformed, otherwise an encoded key and an expiry. */
  function ReadLine(line: string): Option<(string, nat)>
  {
    var parts := Split(line, ' ');
    if |parts| < 2 || parts[0] == "" || !(1 <= |parts[1]| <= 15) || !AllDigits(parts[1]) then None
    else Some((parts[0], Value(parts[1])))
  }

  /** The entries of the unexpired lines; None where decoding a key throws. */
  function LoadLines(lines: seq<string>, now: int, acc: map<string, int>): Option<map<string, int>>
  {
    if lines == [] then Some(acc)
    else
      match ReadLine(lines[0])
      case None => LoadLines(lines[1..], now, acc)
      case Some((encoded, expiresAt)) =>
        if expiresAt <= now then LoadLines(lines[1..], now, acc)
        else
          var key :- UriComponent.Decode(encoded);
          LoadLines(lines[1..], now, acc[key := expiresAt])
  }

  function Load(content: string, now: int): Option<map<string, int>>
  {
    LoadLines(Split(content, '\n'), now, map[])
  }

  /** `loadEntries`; `content` is None when there is no file or it cannot be read. */
  method LoadEntries(content: Option<string>, now: int) returns (r: Option<map<string, int>>)
    ensures content.None? ==> r == Some(map[])
    ensures content.Some? ==> r == Load(content.value, now)
  {
    var admitted: map<string, int> := map[];
    if content.None? {
      return Some(admitted);
    }
    var lines := Split(content.value, '\n');
    for i := 0 to |lines|
      invariant LoadLines(lines[i..], now, admitted) == LoadLines(lines, now, map[])
    {
      assert lines[i..][1..] == lines[i + 1..];
      var reading := ReadLine(lines[i]);
      if reading.Some? && reading.value.1 > now {
        var key := UriComponent.Decode(reading.value.0);
        if key.None? {
          return None;
        }
        admitted := admitted[key.value := reading.value.1];
      }
    }
    r := Some(admitted);
  }

  /** What the file keeps of an entry: expiries outside fifteen digits are not read back. */
  predicate Recordable(e: Entry)
  {
    e.key != "" && 0 <= e.expiresAt < Pow10(15)
  }

  function LoadLog(log: seq<Entry>, now: int, acc: map<string, int>): map<string, int>
  {
    if log == [] then acc
    else if Recordable(log[0]) && log[0].expiresAt > now then
      LoadLog(log[1..], now, acc[log[0].key := log[0].expiresAt])
    else LoadLog(log[1..], now, acc)
  }

  // ---- Reading back what was printed ----

  predicate Without(s: string, sep: char)
  {
    forall i :: 0 <= i < |s| ==> s[i] != sep
  }

  lemma {:induction false} SplitOnce(a: string, sep: char, rest: string)
    requires Without(a, sep)
    ensures Split(a + ([sep] + rest), sep) == [a] + Split(rest, sep)
  {
    var s := a + ([sep] + rest);
    if a == "" {
      assert s[1..] == rest;
    } else {
      assert s[1..] == a[1..] + ([sep] + rest);
      SplitOnce(a[1..], sep, rest);
      assert [a[0]] + a[1..] == a;
    }
  }

  lemma {:induction false} SplitNone(a: string, sep: char)
    requires Without(a, sep)
    ensures Split(a, sep) == [a]
  {
    if a != "" {
      SplitNone(a[1..], sep);
      assert [a[0]] + a[1..] == a;
    }
  }

  /** The first part of a text, and the text after its separator. */
  lemma {:induction false} SplitFirst(s: string, sep: char) returns (rest: string)
    ensures Without(Split(s, sep)[0], sep)
    ensures |Split(s, sep)| == 1 ==> s == Split(s, sep)[0]
    ensures |Split(s, sep)| > 1 ==> s == Split(s, sep)[0] + ([sep] + rest) && Split(rest, sep) == Split(s, sep)[1..]
  {
    rest := "";
    if s != "" && s[0] == sep {
      rest := s[1..];
      assert s == "" + ([sep] + rest);
    } else if s != "" {
      rest := SplitFirst(s[1..], sep);
      var parts := Split(s[1..], sep);
      assert s == [s[0]] + s[1..];
      assert |parts| > 1 ==> [s[0]] + (parts[0] + ([sep] + rest)) == ([s[0]] + parts[0]) + ([sep] + rest);
    }
  }

  /** The shape of a line that is read: a key without blanks, a blank, one to fifteen digits, the end or a blank. */
  ghost predicate Reads(line: string, key: string, digits: string)
  {
    && key != "" && Without(key, ' ') && 1 <= |digits| <= 15 && AllDigits(digits)
    && (line == key + (" " + digits)
        || exists more: string :: line == key + (" " + (digits + (" " + more))))
  }

  lemma ReadLineExactly(line: string, key: string, n: nat)
    ensures ReadLine(line) == Some((key, n)) <==> exists digits :: Reads(line, key, digits) && Value(digits) == n
  {
    hide Value, Split, Without;
    var parts := Split(line, ' ');
    if ReadLine(line) == Some((key, n)) {
      var rest := SplitFirst(line, ' ');
      var more := SplitFirst(rest, ' ');
      assert Split(rest, ' ')[0] == parts[1];
      assert Reads(line, key, parts[1]);
    }
    if digits :| Reads(line, key, digits) && Value(digits) == n {
      NoBlank(digits);
      if line == key + (" " + digits) {
        SplitOnce(key, ' ', digits);
        SplitNone(digits, ' ');
      } else {
        var more: string :| line == key + (" " + (digits + (" " + more)));
        SplitOnce(key, ' ', digits + (" " + more));
        SplitOnce(digits, ' ', more);
      }
    }
  }

  lemma NoBlank(digits: string)
    requires AllDigits(digits)
    ensures Without(digits, ' ')
  {
  }

  function LineText(e: Entry): string
  {
    UriComponent.Encode(e.key) + (" " + Print(e.expiresAt))
  }

  lemma LineTextShape(e: Entry)
    ensures Without(UriComponent.Encode(e.key), ' ') && Without(Print(e.expiresAt), ' ')
    ensures Without(LineText(e), '\n')
  {
    UriComponent.EncodePlain(e.key);
  }

  lemma LineSplits(e: Entry, rest: string)
    ensures Line(e) + rest == LineText(e) + ("\n" + rest)
  {
    ConcatAssociative(UriComponent.Encode(e.key), " ", Print(e.expiresAt) + "\n");
    ConcatAssociative(" ", Print(e.expiresAt), "\n");
    ConcatAssociative(UriComponent.Encode(e.key), " " + Print(e.expiresAt), "\n");
    ConcatAssociative(LineText(e), "\n", rest);
  }

  lemma LineParts(e: Entry)
    ensures Split(LineText(e), ' ') == [UriComponent.Encode(e.key), Print(e.expiresAt)]
    ensures UriComponent.Encode(e.key) == "" <==> e.key == ""
  {
    LineTextShape(e);
    hide Split, Print, Without;
    SplitOnce(UriComponent.Encode(e.key), ' ', Print(e.expiresAt));
    SplitNone(Print(e.expiresAt), ' ');
    UriComponent.EncodePlain(e.key);
  }

  /** A printed expiry is read back as itself exactly when it has at most fifteen digits and no sign. */
  lemma ExpiryReads(n: int)
    ensures var s := Print(n);
      (1 <= |s| <= 15 && AllDigits(s) <==> 0 <= n < Pow10(15)) && (n >= 0 ==> AllDigits(s) && Value(s) == n)
  {
    hide Pow10, Value;
    if n >= 0 {
      ValueOfDigits(n);
      DigitsBound(n, 15);
    } else {
      assert Print(n)[0] == '-';
    }
  }

  /** A printed line reads back as its own key and expiry exactly when the entry is recordable. */
  lemma LineRoundTrip(e: Entry)
    ensures Recordable(e) ==> ReadLine(LineText(e)) == Some((UriComponent.Encode(e.key), e.expiresAt))
    ensures !Recordable(e) ==> ReadLine(LineText(e)) == None
  {
    hide Split, Print, Pow10, Value, LineText;
    LineParts(e);
    ExpiryReads(e.expiresAt);
  }

  lemma {:induction false} LoadFileFrom(log: seq<Entry>, now: int, acc: map<string, int>)
    ensures LoadLines(Split(FileOf(log), '\n'), now, acc) == Some(LoadLog(log, now, acc))
  {
    if log == [] {
      assert Split("", '\n') == [""];
      assert Split("", ' ') == [""];
      assert ReadLine("") == None;
    } else {
      var e, rest := log[0], FileOf(log[1..]);
      LineTextShape(e);
      LineSplits(e, rest);
      SplitOnce(LineText(e), '\n', rest);
      var lines := Split(FileOf(log), '\n');
      assert lines[1..] == Split(rest, '\n');
      LineRoundTrip(e);
      UriComponent.DecodeEncode(e.key);
      LoadFileFrom(log[1..], now,
        if Recordable(e) && e.expiresAt > now then acc[e.key := e.expiresAt] else acc);
    }
  }

  /** Loading the text of a log is folding its recordable, unexpired entries; it never throws. */
  lemma LoadFile(log: seq<Entry>, now: int)
    ensures Load(FileOf(log), now) == Some(LoadLog(log, now, map[]))
  {
    LoadFileFrom(log, now, map[]);
  }

  lemma {:induction false} FileOfAppend(log: seq<Entry>, e: Entry)
    ensures FileOf(log + [e]) == FileOf(log) + Line(e)
  {
    if log == [] {
      assert log + [e] == [e] && FileOf([e]) == Line(e) + "";
    } else {
      assert (log + [e])[1..] == log[1..] + [e];
      FileOfAppend(log[1..], e);
      ConcatAssociative(Line(log[0]), FileOf(log[1..]), Line(e));
    }
  }
}
