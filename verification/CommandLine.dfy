/** list2cmdline of SubprocessingModified.py, proved against a reader for the five rules of its documentation. */
module CommandLine {

  // ----- The reader: the quoting rules of the documentation, one character at a time -----

  // `current` is the argument being read, `slashes` the backslashes just read, whose meaning depends on what follows.
  datatype Reader = Reader(done: seq<string>, inArgument: bool, current: string, quoted: bool, slashes: nat)

  const START := Reader([], false, "", false, 0)

  function Slashes(n: nat): string {
    seq(n, _ => '\\')
  }

  predicate IsBlank(c: char) {
    c == ' ' || c == '\t'
  }

  function Step(r: Reader, c: char): Reader {
    if c == '\\' then
      r.(inArgument := true, slashes := r.slashes + 1)
    else if c == '"' then
      // Rules 3 and 5: a pair of backslashes is one, and an odd one makes the quotation mark literal.
      var half := r.current + Slashes(r.slashes / 2);
      if r.slashes % 2 == 1 then r.(inArgument := true, current := half + "\"", slashes := 0)
      else r.(inArgument := true, current := half, quoted := !r.quoted, slashes := 0)
    else
      // Rule 4: other backslashes are literal.
      var current := r.current + Slashes(r.slashes);
      if IsBlank(c) && !r.quoted then
        // Rule 1: white space delimits arguments.
        if r.inArgument then Reader(r.done + [current], false, "", false, 0) else r
      else
        // Rule 2: between quotation marks white space is ordinary.
        r.(inArgument := true, current := current + [c], slashes := 0)
  }

  function Read(r: Reader, s: string): Reader
    decreases |s|
  {
    if s == "" then r else Read(Step(r, s[0]), s[1..])
  }

  function Finish(r: Reader): seq<string> {
    if r.inArgument then r.done + [r.current + Slashes(r.slashes)] else r.done
  }

  function Parse(line: string): seq<string> {
    Finish(Read(START, line))
  }

  // ----- The writer -----

  predicate NeedsQuotes(arg: string) {
    ' ' in arg || '\t' in arg || arg == ""
  }

  // One more character after the text written so far and the number of backslashes withheld at its end.
  function Emit(w: (string, nat), c: char): (string, nat) {
    if c == '\\' then (w.0, w.1 + 1)
    else if c == '"' then (w.0 + Slashes(2 * w.1) + "\\\"", 0)
    else (w.0 + Slashes(w.1) + [c], 0)
  }

  function Written(arg: string): (w: (string, nat))
    decreases |arg|
  {
    if arg == "" then ("", 0) else Emit(Written(arg[..|arg| - 1]), arg[|arg| - 1])
  }

  function Encode(arg: string): string {
    var (text, pending) := Written(arg);
    if NeedsQuotes(arg) then "\"" + text + Slashes(pending) + Slashes(pending) + "\"" else text + Slashes(pending)
  }

  function Line(args: seq<string>): string
    decreases |args|
  {
    if args == [] then ""
    else
      var before := args[..|args| - 1];
      Line(before) + (if before == [] then "" else " ") + Encode(args[|args| - 1])
  }

  // ----- Reading what was written -----

  lemma Regroup(a: string, b: string, c: string)
    ensures a + (b + c) == a + b + c
  {
  }

  lemma TwiceSlashes(n: nat)
    ensures Slashes(n) + Slashes(n) == Slashes(2 * n)
  {
  }

  lemma {:induction false} ReadConcat(r: Reader, a: string, b: string)
    ensures Read(r, a + b) == Read(Read(r, a), b)
    decreases |a|
  {
    if a == "" {
      assert a + b == b;
    } else {
      assert (a + b)[1..] == a[1..] + b;
      ReadConcat(Step(r, a[0]), a[1..], b);
    }
  }

  lemma {:induction false} ReadSlashes(r: Reader, n: nat)
    ensures Read(r, Slashes(n)) == r.(inArgument := r.inArgument || n > 0, slashes := r.slashes + n)
    decreases n
  {
    if n > 0 {
      assert Slashes(n)[1..] == Slashes(n - 1);
      ReadSlashes(Step(r, '\\'), n - 1);
    }
  }

  lemma ReadOne(r: Reader, c: char)
    ensures Read(r, [c]) == Step(r, c)
  {
  }

  // A character that the reader takes literally: any, between quotation marks; otherwise any but a blank.
  predicate Literal(r: Reader, c: char) {
    r.quoted || !IsBlank(c)
  }

  lemma ReadEscapedQuote(r: Reader, n: nat)
    requires r.slashes == 0
    ensures Read(r, Slashes(2 * n) + "\\\"") == r.(inArgument := true, current := r.current + Slashes(n) + "\"")
  {
    var before := Read(r, Slashes(2 * n + 1));
    assert Slashes(2 * n) + "\\\"" == Slashes(2 * n + 1) + "\"";
    ReadConcat(r, Slashes(2 * n + 1), "\"");
    ReadSlashes(r, 2 * n + 1);
    ReadOne(before, '"');
    assert before.slashes / 2 == n;
  }

  lemma ReadOrdinary(r: Reader, n: nat, c: char)
    requires Literal(r, c) && r.slashes == 0 && c != '"' && c != '\\'
    ensures Read(r, Slashes(n) + [c]) == r.(inArgument := true, current := r.current + Slashes(n) + [c])
  {
    ReadConcat(r, Slashes(n), [c]);
    ReadSlashes(r, n);
    ReadOne(Read(r, Slashes(n)), c);
  }

  // An argument without the backslashes at its end.
  function Body(arg: string): string
    decreases |arg|
  {
    if arg != "" && arg[|arg| - 1] == '\\' then Body(arg[..|arg| - 1]) else arg
  }

  lemma {:induction false} BodyAndSlashes(arg: string)
    ensures arg == Body(arg) + Slashes(Written(arg).1)
    decreases |arg|
  {
    if arg != "" {
      var before, c := arg[..|arg| - 1], arg[|arg| - 1];
      BodyAndSlashes(before);
      assert arg == before + [c];
      if c == '\\' {
        assert Slashes(Written(before).1 + 1) == Slashes(Written(before).1) + [c];
      }
    }
  }

  // Reading the written text gives back the argument up to the backslashes withheld.
  lemma {:induction false} ReadWritten(r: Reader, arg: string)
    requires r.slashes == 0 && forall i :: 0 <= i < |arg| ==> Literal(r, arg[i])
    ensures Read(r, Written(arg).0) ==
            r.(inArgument := r.inArgument || Body(arg) != "", current := r.current + Body(arg))
    decreases |arg|
  {
    if arg == "" {
      assert r.current + "" == r.current;
    } else {
      var before, c := arg[..|arg| - 1], arg[|arg| - 1];
      ReadWritten(r, before);
      if c != '\\' {
        ReadWrittenNext(r, before, c);
        assert arg == before + [c];
      }
    }
  }

  lemma ReadWrittenNext(r: Reader, before: string, c: char)
    requires r.slashes == 0 && Literal(r, c) && c != '\\'
    requires Read(r, Written(before).0) ==
             r.(inArgument := r.inArgument || Body(before) != "", current := r.current + Body(before))
    ensures var (text, n) := Written(before);
            Read(r, if c == '"' then text + Slashes(2 * n) + "\\\"" else text + Slashes(n) + [c]) ==
            r.(inArgument := true, current := r.current + (before + [c]))
  {
    var (text, n) := Written(before);
    BodyAndSlashes(before);
    Regroup(r.current, Body(before), Slashes(n));
    Regroup(r.current, before, [c]);
    if c == '"' {
      Regroup(text, Slashes(2 * n), "\\\"");
      ReadConcat(r, text, Slashes(2 * n) + "\\\"");
      ReadEscapedQuote(Read(r, text), n);
    } else {
      Regroup(text, Slashes(n), [c]);
      ReadConcat(r, text, Slashes(n) + [c]);
      ReadOrdinary(Read(r, text), n, c);
    }
  }

  // Between arguments, outside quotation marks.
  ghost predicate Between(r: Reader) {
    !r.inArgument && r.current == "" && !r.quoted && r.slashes == 0
  }

  // The last argument has been read but for the white space or the end that closes it.
  ghost predicate Closing(r: Reader, args: seq<string>) {
    r.inArgument && !r.quoted && Finish(r) == args
  }

  lemma ReadEncodedPlain(r: Reader, arg: string)
    requires Between(r) && !NeedsQuotes(arg)
    ensures Closing(Read(r, Encode(arg)), r.done + [arg])
  {
    var (text, n) := Written(arg);
    ReadConcat(r, text, Slashes(n));
    ReadWritten(r, arg);
    ReadSlashes(Read(r, text), n);
    BodyAndSlashes(arg);
    assert r.current + Body(arg) + Slashes(n) == arg;
  }

  lemma EncodeQuoted(arg: string)
    requires NeedsQuotes(arg)
    ensures var (text, n) := Written(arg); Encode(arg) == "\"" + (text + (Slashes(2 * n) + "\""))
  {
    var (text, n) := Written(arg);
    TwiceSlashes(n);
    Regroup("\"" + text, Slashes(n), Slashes(n));
    Regroup("\"" + text, Slashes(2 * n), "\"");
    Regroup("\"", text, Slashes(2 * n) + "\"");
  }

  lemma ReadClosingQuote(r: Reader, n: nat)
    requires r.quoted && r.slashes == 0
    ensures Read(r, Slashes(2 * n) + "\"") == r.(inArgument := true, current := r.current + Slashes(n), quoted := false)
  {
    ReadConcat(r, Slashes(2 * n), "\"");
    ReadSlashes(r, 2 * n);
  }

  lemma ReadEncodedQuoted(r: Reader, arg: string)
    requires Between(r) && NeedsQuotes(arg)
    ensures Closing(Read(r, Encode(arg)), r.done + [arg])
  {
    var (text, n) := Written(arg);
    var open := Reader(r.done, true, "", true, 0);
    var last := Slashes(2 * n) + "\"";
    EncodeQuoted(arg);
    ReadConcat(r, "\"", text + last);
    assert Step(r, '"') == open;
    ReadConcat(open, text, last);
    ReadWritten(open, arg);
    ReadClosingQuote(Read(open, text), n);
    BodyAndSlashes(arg);
    assert "" + Body(arg) == Body(arg);
    assert arg + Slashes(0) == arg;
  }

  lemma LineMore(before: seq<string>, arg: string)
    requires before != []
    ensures Line(before + [arg]) == Line(before) + (" " + Encode(arg))
  {
    assert (before + [arg])[..|before|] == before;
    Regroup(Line(before), " ", Encode(arg));
  }

  lemma {:induction false} ReadLine(args: seq<string>)
    requires args != []
    ensures Closing(Read(START, Line(args)), args)
    decreases |args|
  {
    var before, arg := args[..|args| - 1], args[|args| - 1];
    assert args == before + [arg];
    if before == [] {
      assert Line(args) == Encode(arg);
      ReadEncoded(START, arg);
    } else {
      ReadLine(before);
      LineMore(before, arg);
      ReadMore(before, arg);
    }
  }

  lemma ReadMore(before: seq<string>, arg: string)
    requires Closing(Read(START, Line(before)), before)
    ensures Closing(Read(START, Line(before) + (" " + Encode(arg))), before + [arg])
  {
    ReadConcat(START, Line(before), " " + Encode(arg));
    ReadNext(Read(START, Line(before)), before, arg);
  }

  lemma ReadNext(r: Reader, before: seq<string>, arg: string)
    requires Closing(r, before)
    ensures Closing(Read(r, " " + Encode(arg)), before + [arg])
  {
    ReadConcat(r, " ", Encode(arg));
    assert Read(r, " ") == Step(r, ' ');
    ReadEncoded(Step(r, ' '), arg);
  }

  lemma ReadEncoded(r: Reader, arg: string)
    requires Between(r)
    ensures Closing(Read(r, Encode(arg)), r.done + [arg])
  {
    if NeedsQuotes(arg) {
      ReadEncodedQuoted(r, arg);
    } else {
      ReadEncodedPlain(r, arg);
    }
  }

  // Reading the line that was written for any arguments gives those arguments.
  lemma RoundTrip(args: seq<string>)
    ensures Parse(Line(args)) == args
  {
    if args != [] {
      ReadLine(args);
    }
  }

  // Different arguments never give the same line.
  lemma LinesAreDistinct(a: seq<string>, b: seq<string>)
    requires Line(a) == Line(b)
    ensures a == b
  {
    RoundTrip(a);
    RoundTrip(b);
  }

  // ----- The written form itself -----

  function TrailingSlashes(arg: string): nat
    decreases |arg|
  {
    if arg != "" && arg[|arg| - 1] == '\\' then 1 + TrailingSlashes(arg[..|arg| - 1]) else 0
  }

  lemma {:induction false} WithheldAreTrailing(arg: string)
    ensures Written(arg).1 == TrailingSlashes(arg)
    decreases |arg|
  {
    if arg != "" {
      WithheldAreTrailing(arg[..|arg| - 1]);
    }
  }

  // Text without quotation marks goes onto a text written before as it is, backslashes included.
  lemma {:induction false} QuoteFreeIsCopied(a: string, x: string)
    requires '"' !in x
    ensures Written(a + x).0 + Slashes(TrailingSlashes(a + x)) == Written(a).0 + Slashes(TrailingSlashes(a)) + x
    decreases |x|
  {
    if x == "" {
      assert a + x == a;
    } else {
      var init, c := x[..|x| - 1], x[|x| - 1];
      QuoteFreeIsCopied(a, init);
      assert (a + x)[..|a + x| - 1] == a + init && (a + x)[|a + x| - 1] == c;
      assert x == init + [c];
      NextIsCopied(a + init, c);
      Regroup(Written(a).0 + Slashes(TrailingSlashes(a)), init, [c]);
      assert a + init + [c] == a + x;
    }
  }

  lemma NextIsCopied(a: string, c: char)
    requires c != '"'
    ensures Written(a + [c]).0 + Slashes(TrailingSlashes(a + [c])) == Written(a).0 + Slashes(TrailingSlashes(a)) + [c]
  {
    assert (a + [c])[..|a|] == a;
    WithheldAreTrailing(a);
    if c == '\\' {
      assert Slashes(TrailingSlashes(a) + 1) == Slashes(TrailingSlashes(a)) + [c];
      Regroup(Written(a).0, Slashes(TrailingSlashes(a)), [c]);
    } else {
      assert Slashes(0) == "";
    }
  }

  // Each quotation mark is escaped, and the backslashes right before it are doubled.
  lemma QuoteIsEscaped(a: string)
    ensures Written(a + "\"").0 + Slashes(TrailingSlashes(a + "\"")) ==
            Written(a).0 + Slashes(TrailingSlashes(a)) + Slashes(TrailingSlashes(a)) + "\\\""
  {
    assert (a + "\"")[..|a|] == a;
    WithheldAreTrailing(a);
    TwiceSlashes(TrailingSlashes(a));
    Regroup(Written(a).0, Slashes(TrailingSlashes(a)), Slashes(TrailingSlashes(a)));
    assert Slashes(0) == "";
  }

  // An argument is put between quotation marks just when it is empty or has white space, and then the backslashes at its
  // end are doubled.
  lemma QuotedIffBlank(arg: string)
    ensures var text := Written(arg).0 + Slashes(TrailingSlashes(arg));
            Encode(arg) == if arg == "" || ' ' in arg || '\t' in arg then "\"" + text + Slashes(TrailingSlashes(arg)) + "\"" else text
  {
    WithheldAreTrailing(arg);
    Regroup("\"", Written(arg).0, Slashes(TrailingSlashes(arg)));
  }

  // So an argument without quotation marks is written as it is, or between quotation marks.
  lemma QuoteFreeArgument(arg: string)
    requires '"' !in arg
    ensures Encode(arg) ==
            if arg == "" || ' ' in arg || '\t' in arg then "\"" + arg + Slashes(TrailingSlashes(arg)) + "\"" else arg
  {
    QuotedIffBlank(arg);
    QuoteFreeIsCopied("", arg);
    assert "" + arg == arg && Slashes(0) == "";
  }

  // Arguments are separated by one space.
  lemma OneSpaceBetween(before: seq<string>, arg: string)
    ensures Line(before + [arg]) == if before == [] then Encode(arg) else Line(before) + " " + Encode(arg)
  {
    assert (before + [arg])[..|before|] == before;
  }

  // ----- The program -----

  function Joined(pieces: seq<string>): string
    decreases |pieces|
  {
    if pieces == [] then "" else Joined(pieces[..|pieces| - 1]) + pieces[|pieces| - 1]
  }

  lemma JoinedAppend(pieces: seq<string>, piece: string)
    ensures Joined(pieces + [piece]) == Joined(pieces) + piece
  {
    assert (pieces + [piece])[..|pieces|] == pieces;
  }

  method List2CmdLine(args: seq<string>) returns (line: string)
    ensures line == Line(args) && Parse(line) == args
  {
    var result: seq<string> := [];
    for k := 0 to |args|
      invariant Joined(result) == Line(args[..k]) && (result == [] <==> k == 0)
    {
      LineNext(args, k);
      if result != [] {
        result := Append(result, " ");
      }
      result := AppendArgument(result, args[k]);
    }
    assert args[..|args|] == args;
    line := Joined(result);
    RoundTrip(args);
  }

  lemma LineNext(args: seq<string>, k: nat)
    requires k < |args|
    ensures Line(args[..k + 1]) == (if k == 0 then Line(args[..k]) else Line(args[..k]) + " ") + Encode(args[k])
  {
    assert args[..k + 1][..k] == args[..k];
    assert k == 0 ==> Line(args[..k]) + "" == Line(args[..k]);
  }

  method Append(result: seq<string>, piece: string) returns (r: seq<string>)
    ensures r == result + [piece] && Joined(r) == Joined(result) + piece
  {
    JoinedAppend(result, piece);
    r := result + [piece];
  }

  method AppendArgument(before: seq<string>, arg: string) returns (result: seq<string>)
    ensures result != [] && Joined(result) == Joined(before) + Encode(arg)
  {
    var needQuote := ' ' in arg || '\t' in arg || arg == "";
    result := before;
    if needQuote {
      result := Append(result, "\"");
    }
    var backslashes;
    result, backslashes := AppendCharacters(result, arg);
    result := AppendUnlessEmpty(result, backslashes);
    if needQuote {
      result := Append(result, backslashes);
      result := Append(result, "\"");
    }
    Grouped(Joined(before), arg);
  }

  // Encode(arg) after `before`, built up piece by piece.
  lemma Grouped(before: string, arg: string)
    ensures var (text, n) := Written(arg);
            before + Encode(arg) ==
            if NeedsQuotes(arg) then before + "\"" + text + Slashes(n) + Slashes(n) + "\"" else before + text + Slashes(n)
  {
    var (text, n) := Written(arg);
    Regroup(before, text, Slashes(n));
    Regroup(before, "\"", text);
    Regroup(before, "\"" + text, Slashes(n));
    Regroup(before, "\"" + text + Slashes(n), Slashes(n));
    Regroup(before, "\"" + text + Slashes(n) + Slashes(n), "\"");
  }

  method AppendCharacters(before: seq<string>, arg: string) returns (result: seq<string>, backslashes: string)
    ensures backslashes == Slashes(Written(arg).1)
    ensures Joined(result) == Joined(before) + Written(arg).0
    ensures result == [] ==> before == [] && (arg == "" || backslashes != "")
  {
    result := before;
    backslashes := "";
    for i := 0 to |arg|
      invariant backslashes == Slashes(Written(arg[..i]).1)
      invariant Joined(result) == Joined(before) + Written(arg[..i]).0
      invariant result == [] ==> before == [] && (i == 0 || backslashes != "")
    {
      assert arg[..i + 1][..i] == arg[..i];
      result, backslashes := AppendCharacter(result, backslashes, arg[i], Joined(before), Written(arg[..i]));
    }
    assert arg[..|arg|] == arg;
  }

  // One turn of the loop over the characters of an argument.
  method AppendCharacter(before: seq<string>, withheld: string, c: char, ghost base: string, ghost w: (string, nat))
    returns (result: seq<string>, backslashes: string)
    requires withheld == Slashes(w.1) && Joined(before) == base + w.0
    ensures backslashes == Slashes(Emit(w, c).1) && Joined(result) == base + Emit(w, c).0
    ensures result == [] ==> before == [] && backslashes != ""
  {
    result, backslashes := before, "";
    if c == '\\' {
      backslashes := withheld + [c];
      assert backslashes == Slashes(w.1 + 1);
    } else if c == '"' {
      result := Append(result, Slashes(2 * |withheld|));
      result := Append(result, "\\\"");
      Regroup(base, w.0, Slashes(2 * w.1));
      Regroup(base, w.0 + Slashes(2 * w.1), "\\\"");
    } else {
      result := AppendUnlessEmpty(result, withheld);
      result := Append(result, [c]);
      Regroup(base, w.0, Slashes(w.1));
      Regroup(base, w.0 + Slashes(w.1), [c]);
    }
  }

  method AppendUnlessEmpty(before: seq<string>, backslashes: string) returns (result: seq<string>)
    ensures Joined(result) == Joined(before) + backslashes
    ensures result == [] ==> before == [] && backslashes == ""
  {
    result := before;
    if backslashes != "" {
      result := Append(result, backslashes);
    } else {
      assert Joined(before) + "" == Joined(before);
    }
  }
}
