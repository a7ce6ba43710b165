/**
  How the client builds its command lines (src/client/gui/mainwindow.cpp and groupchatwindow.cpp),
  with QString::arg modelled as it works: every call replaces the lowest-numbered place markers %n
  of the text it is called on, wherever they came from.
 */
module ClientCommands {
  import opened Text
  import opened Lists
  import opened Commands
  import opened CommandLines

  /* ----- QString::arg ----- */

  predicate IsDigit(c: char) {
    '0' <= c <= '9'
  }

  function DigitValue(c: char): nat
    requires IsDigit(c)
  {
    (c - '0') as nat
  }

  datatype Piece = Plain(c: char) | Marker(number: nat, text: string)

  /** The length of the place marker at the start of s (%n, %nn, %Ln or %Lnn), or 0 if there is none. */
  function MarkerLength(s: string): (n: nat)
    ensures n <= |s| && (n > 0 ==> n >= 2 && s[0] == '%')
  {
    if s == "" || s[0] != '%' then 0
    else
      var j := if |s| > 1 && s[1] == 'L' then 2 else 1;
      if |s| <= j || !IsDigit(s[j]) then 0
      else if |s| > j + 1 && IsDigit(s[j + 1]) then j + 2
      else j + 1
  }

  function MarkerNumber(s: string): nat
    requires MarkerLength(s) > 0
  {
    var j := if s[1] == 'L' then 2 else 1;
    if MarkerLength(s) == j + 2 then 10 * DigitValue(s[j]) + DigitValue(s[j + 1]) else DigitValue(s[j])
  }

  function Pieces(s: string): seq<Piece>
    decreases |s|
  {
    if s == "" then []
    else if MarkerLength(s) > 0 then
      [Marker(MarkerNumber(s), s[..MarkerLength(s)])] + Pieces(s[MarkerLength(s)..])
    else [Plain(s[0])] + Pieces(s[1..])
  }

  /** The text with every marker of this number replaced. */
  function Fill(pieces: seq<Piece>, number: int, a: string): string {
    if pieces == [] then ""
    else
      (match pieces[0]
       case Plain(c) => [c]
       case Marker(n, text) => if n == number then a else text)
      + Fill(pieces[1..], number, a)
  }

  /** The lowest marker number, or -1. */
  function Lowest(pieces: seq<Piece>): int {
    if pieces == [] then -1
    else
      var rest := Lowest(pieces[1..]);
      match pieces[0]
      case Plain(_) => rest
      case Marker(n, _) => if rest == -1 || n < rest then n else rest
  }

  function Arg(s: string, a: string): string {
    var pieces := Pieces(s);
    if Lowest(pieces) == -1 then s else Fill(pieces, Lowest(pieces), a)
  }

  function Plains(s: string): seq<Piece> {
    if s == "" then [] else [Plain(s[0])] + Plains(s[1..])
  }

  lemma {:induction false} PiecesAfterPlain(a: string, b: string)
    requires '%' !in a
    ensures Pieces(a + b) == Plains(a) + Pieces(b)
  {
    if a == "" {
      assert a + b == b;
    } else {
      assert a[0] in a && (a + b)[1..] == a[1..] + b;
      PiecesAfterPlain(a[1..], b);
    }
  }

  function PieceText(p: Piece): string {
    match p
    case Plain(c) => [c]
    case Marker(_, text) => text
  }

  /** The first piece of a text, and how far it reaches. */
  function FirstPiece(s: string): Piece
    requires s != ""
  {
    if MarkerLength(s) > 0 then Marker(MarkerNumber(s), s[..MarkerLength(s)]) else Plain(s[0])
  }

  function FirstReach(s: string): (n: nat)
    requires s != ""
    ensures 0 < n <= |s|
  {
    if MarkerLength(s) > 0 then MarkerLength(s) else 1
  }

  lemma PiecesStep(s: string)
    requires s != ""
    ensures Pieces(s) == [FirstPiece(s)] + Pieces(s[FirstReach(s)..])
    ensures s == PieceText(FirstPiece(s)) + s[FirstReach(s)..]
  {
  }

  lemma FirstBeforeSpace(a: string, b: string)
    requires a != ""
    ensures FirstReach(a + " " + b) == FirstReach(a)
    ensures FirstPiece(a + " " + b) == FirstPiece(a)
  {
    var s := a + " " + b;
    assert MarkerLength(s) == MarkerLength(a);
    assert s[..MarkerLength(a)] == a[..MarkerLength(a)];
  }

  /** A space ends every marker before it. */
  lemma {:induction false} PiecesBeforeSpace(a: string, b: string)
    ensures Pieces(a + " " + b) == Pieces(a) + Pieces(" " + b)
    decreases |a|
  {
    if a == "" {
      assert a + " " + b == " " + b;
    } else {
      FirstBeforeSpace(a, b);
      var rest := a[FirstReach(a)..];
      assert (a + " " + b)[FirstReach(a)..] == rest + " " + b;
      PiecesStep(a);
      PiecesStep(a + " " + b);
      PiecesBeforeSpace(rest, b);
      Regroup([FirstPiece(a)], Pieces(rest), Pieces(" " + b));
    }
  }

  lemma {:induction false} FillConcat(a: seq<Piece>, b: seq<Piece>, number: int, x: string)
    ensures Fill(a + b, number, x) == Fill(a, number, x) + Fill(b, number, x)
  {
    if a == [] {
      assert a + b == b;
    } else {
      assert (a + b)[1..] == a[1..] + b;
      FillConcat(a[1..], b, number, x);
    }
  }

  lemma {:induction false} LowestConcat(a: seq<Piece>, b: seq<Piece>)
    ensures Lowest(a + b) == if Lowest(a) == -1 then Lowest(b) else if Lowest(b) == -1 then Lowest(a)
                             else if Lowest(a) < Lowest(b) then Lowest(a) else Lowest(b)
    ensures Lowest(a) >= -1
  {
    if a == [] {
      assert a + b == b;
    } else {
      assert (a + b)[1..] == a[1..] + b;
      LowestConcat(a[1..], b);
    }
  }

  lemma {:induction false} PlainsAreInert(s: string, number: int, a: string)
    ensures Fill(Plains(s), number, a) == s && Lowest(Plains(s)) == -1
  {
    if s != "" {
      PlainsAreInert(s[1..], number, a);
      assert s == [s[0]] + s[1..];
    }
  }

  lemma FillStep(p: Piece, rest: seq<Piece>, number: int, a: string)
    ensures Fill([p] + rest, number, a) ==
            (if p.Marker? && p.number == number then a else PieceText(p)) + Fill(rest, number, a)
    ensures Lowest([p] + rest) == if p.Plain? then Lowest(rest)
                                  else if Lowest(rest) == -1 || p.number < Lowest(rest) then p.number else Lowest(rest)
  {
    assert ([p] + rest)[1..] == rest;
  }

  /** Filling in a number that does not occur changes nothing. */
  lemma {:induction false} FillAbsent(s: string, number: int, a: string)
    requires number < Lowest(Pieces(s)) || Lowest(Pieces(s)) == -1
    ensures Fill(Pieces(s), number, a) == s
    decreases |s|
  {
    if s != "" {
      var rest := s[FirstReach(s)..];
      PiecesStep(s);
      FillStep(FirstPiece(s), Pieces(rest), number, a);
      LowestIsNumber(Pieces(rest));
      FillAbsent(rest, number, a);
    }
  }

  lemma {:induction false} LowestIsNumber(pieces: seq<Piece>)
    ensures Lowest(pieces) >= -1
  {
    if pieces != [] {
      LowestIsNumber(pieces[1..]);
    }
  }

  /** Filling in the lowest number puts at least one whole copy of the argument into the text. */
  lemma {:induction false} FillPresent(pieces: seq<Piece>, a: string)
    requires Lowest(pieces) != -1
    ensures |Fill(pieces, Lowest(pieces), a)| >= |a|
  {
    var rest := pieces[1..];
    LowestIsNumber(rest);
    if pieces[0].Marker? && pieces[0].number == Lowest(pieces) {
    } else {
      FillPresent(rest, a);
    }
  }

  /* ----- templates with one and with two markers ----- */

  lemma ArgOnce(head: string, a: string, tail: string)
    requires '%' !in head && '%' !in tail
    requires tail == "" || !IsDigit(tail[0])
    ensures Arg(head + "%1" + tail, a) == head + a + tail
  {
    OneMarkerPieces(head, tail);
    var h, rest := Plains(head), Plains(tail);
    var marked := [Marker(1, "%1")] + rest;
    assert Fill(h, 1, a) == head && Lowest(h) == -1 by { PlainsAreInert(head, 1, a); }
    assert Fill(rest, 1, a) == tail && Lowest(rest) == -1 by { PlainsAreInert(tail, 1, a); }
    FillStep(Marker(1, "%1"), rest, 1, a);
    FillConcat(h, marked, 1, a);
    LowestConcat(h, marked);
    assert head + (a + tail) == head + a + tail;
  }

  lemma OneMarkerPieces(head: string, tail: string)
    requires '%' !in head && '%' !in tail
    requires tail == "" || !IsDigit(tail[0])
    ensures Pieces(head + "%1" + tail) == Plains(head) + ([Marker(1, "%1")] + Plains(tail))
  {
    MarkerThen("%1", 1, tail);
    PiecesAfterPlain(head, "%1" + tail);
    assert head + "%1" + tail == head + ("%1" + tail);
  }

  lemma MarkerThen(marker: string, number: nat, tail: string)
    requires |marker| == 2 && marker[0] == '%' && IsDigit(marker[1]) && number == DigitValue(marker[1])
    requires '%' !in tail
    requires tail == "" || !IsDigit(tail[0])
    ensures Pieces(marker + tail) == [Marker(number, marker)] + Plains(tail)
  {
    var s := marker + tail;
    assert MarkerLength(s) == 2 && s[..2] == marker && s[2..] == tail;
    PiecesAfterPlain(tail, "");
    assert tail + "" == tail;
  }

  /** The text of a two-marker template: head, a space, %1, a space, mid, %2, tail. */
  function Template(head: string, first: string, mid: string, second: string, tail: string): string {
    head + " " + (first + " " + (mid + (second + tail)))
  }

  ghost predicate PlainTemplate(head: string, mid: string, tail: string) {
    '%' !in head && '%' !in mid && '%' !in tail && (tail == "" || !IsDigit(tail[0]))
  }

  lemma TemplatePieces(head: string, first: string, mid: string, tail: string)
    requires PlainTemplate(head, mid, tail)
    ensures Pieces(Template(head, first, mid, "%2", tail)) ==
            (Plains(head + " ") + Pieces(first)) + (Plains(" " + mid) + ([Marker(2, "%2")] + Plains(tail)))
  {
    MarkerThen("%2", 2, tail);
    PlacedPieces(head, first, mid, "%2" + tail);
  }

  /** A word between a plain head and a plain middle. */
  lemma PlacedPieces(head: string, first: string, mid: string, end: string)
    requires '%' !in head && '%' !in mid
    ensures Pieces(head + " " + (first + " " + (mid + end))) ==
            (Plains(head + " ") + Pieces(first)) + (Plains(" " + mid) + Pieces(end))
  {
    PiecesAfterPlain(" " + mid, end);
    assert " " + mid + end == " " + (mid + end);
    PiecesBeforeSpace(first, mid + end);
    PiecesAfterPlain(head + " ", first + " " + (mid + end));
    Regroup(Plains(head + " "), Pieces(first), Plains(" " + mid) + Pieces(end));
  }

  lemma TemplateLowest(head: string, first: string, mid: string, tail: string)
    requires PlainTemplate(head, mid, tail)
    ensures var n := Lowest(Pieces(first));
            Lowest(Pieces(Template(head, first, mid, "%2", tail))) == if n == -1 || n > 2 then 2 else n
  {
    TemplatePieces(head, first, mid, tail);
    PlainsAreInert(head + " ", 0, "");
    PlainsAreInert(" " + mid, 0, "");
    PlainsAreInert(tail, 0, "");
    var marker := [Marker(2, "%2")];
    assert marker[1..] == [] && Lowest(marker) == 2;
    LowestConcat(marker, Plains(tail));
    LowestConcat(Plains(" " + mid), marker + Plains(tail));
    LowestConcat(Plains(head + " "), Pieces(first));
    LowestConcat(Plains(head + " ") + Pieces(first), Plains(" " + mid) + (marker + Plains(tail)));
  }

  lemma TemplateFill(head: string, first: string, mid: string, tail: string, number: int, a: string)
    requires PlainTemplate(head, mid, tail)
    ensures Fill(Pieces(Template(head, first, mid, "%2", tail)), number, a) ==
            Template(head, Fill(Pieces(first), number, a), mid, if number == 2 then a else "%2", tail)
  {
    TemplatePieces(head, first, mid, tail);
    var h, m, marker := Plains(head + " "), Plains(" " + mid), [Marker(2, "%2")];
    var filled, second := Fill(Pieces(first), number, a), if number == 2 then a else "%2";
    FillFive(h, Pieces(first), m, marker, Plains(tail), number, a);
    assert Fill(h, number, a) == head + " " by { PlainsAreInert(head + " ", number, a); }
    assert Fill(m, number, a) == " " + mid by { PlainsAreInert(" " + mid, number, a); }
    assert Fill(Plains(tail), number, a) == tail by { PlainsAreInert(tail, number, a); }
    assert Fill(marker, number, a) == second by {
      FillStep(Marker(2, "%2"), [], number, a);
      assert marker + [] == marker;
    }
    TemplateParts(head, filled, mid, second, tail);
  }

  lemma FillFive(p1: seq<Piece>, p2: seq<Piece>, p3: seq<Piece>, p4: seq<Piece>, p5: seq<Piece>, n: int, a: string)
    ensures Fill((p1 + p2) + (p3 + (p4 + p5)), n, a) ==
            (Fill(p1, n, a) + Fill(p2, n, a)) + (Fill(p3, n, a) + (Fill(p4, n, a) + Fill(p5, n, a)))
  {
    FillConcat(p4, p5, n, a);
    FillConcat(p3, p4 + p5, n, a);
    FillConcat(p1, p2, n, a);
    FillConcat(p1 + p2, p3 + (p4 + p5), n, a);
  }

  lemma TemplateParts(head: string, first: string, mid: string, second: string, tail: string)
    ensures ((head + " ") + first) + ((" " + mid) + (second + tail)) == Template(head, first, mid, second, tail)
  {
  }

  /** A name has a low marker if it holds a place marker with a number up to 2. */
  predicate LowMarker(name: string) {
    0 <= Lowest(Pieces(name)) <= 2
  }

  /** A number of one digit, or of two if another digit follows, stands at j. */
  predicate NumberAt(s: string, j: nat, n: nat) {
    && j < |s| && IsDigit(s[j])
    && n == if j + 1 < |s| && IsDigit(s[j + 1]) then 10 * DigitValue(s[j]) + DigitValue(s[j + 1]) else DigitValue(s[j])
  }

  /** %n or %Ln stands at i. */
  predicate PlaceMarkerAt(s: string, i: nat, n: nat) {
    && i < |s| && s[i] == '%'
    && (NumberAt(s, i + 1, n) || (i + 1 < |s| && s[i + 1] == 'L' && NumberAt(s, i + 2, n)))
  }

  lemma MarkerAtHead(s: string, n: nat)
    requires s != ""
    ensures PlaceMarkerAt(s, 0, n) <==> FirstPiece(s).Marker? && FirstPiece(s).number == n
    ensures forall i :: 0 < i < FirstReach(s) ==> s[i] != '%'
  {
  }

  lemma MarkerBehind(s: string, k: nat, i: nat, n: nat)
    requires k <= i && k <= |s|
    ensures PlaceMarkerAt(s, i, n) <==> PlaceMarkerAt(s[k..], i - k, n)
  {
    if i < |s| {
      assert forall j :: 0 <= j < |s| - k ==> s[k..][j] == s[j + k];
    }
  }

  /** The lowest number is that of some place marker, and no place marker has a lower one. */
  lemma {:induction false} LowestIsLeast(s: string, i: nat, n: nat)
    ensures PlaceMarkerAt(s, i, n) ==> 0 <= Lowest(Pieces(s)) <= n
    ensures Lowest(Pieces(s)) >= 0 ==> exists j: nat :: PlaceMarkerAt(s, j, Lowest(Pieces(s)))
    decreases |s|
  {
    if s != "" {
      var k := FirstReach(s);
      var p, rest := FirstPiece(s), Pieces(s[k..]);
      PiecesStep(s);
      FillStep(p, rest, 0, "");
      LowestIsNumber(rest);
      LowestIsLeast(s[k..], if i < k then 0 else i - k, n);
      MarkerAtHead(s, n);
      if i >= k {
        MarkerBehind(s, k, i, n);
      }
      LowestStands(s);
    }
  }

  lemma LowestStands(s: string)
    requires s != ""
    requires var rest := Pieces(s[FirstReach(s)..]);
             Lowest(rest) >= 0 ==> exists j: nat :: PlaceMarkerAt(s[FirstReach(s)..], j, Lowest(rest))
    ensures Lowest(Pieces(s)) >= 0 ==> exists j: nat :: PlaceMarkerAt(s, j, Lowest(Pieces(s)))
  {
    var k := FirstReach(s);
    var p, rest := FirstPiece(s), Pieces(s[k..]);
    PiecesStep(s);
    FillStep(p, rest, 0, "");
    LowestIsNumber(rest);
    var n := Lowest(Pieces(s));
    if n >= 0 {
      if p.Marker? && p.number == n {
        MarkerAtHead(s, n);
      } else {
        assert n == Lowest(rest);
        var j: nat :| PlaceMarkerAt(s[k..], j, n);
        MarkerBehind(s, k, j + k, n);
        assert PlaceMarkerAt(s, j + k, n);
      }
    }
  }

  /** A text without place markers is left as it is. */
  lemma ArgWithoutMarker(s: string, a: string)
    requires forall i: nat, n: nat :: !PlaceMarkerAt(s, i, n)
    ensures Arg(s, a) == s
  {
    LowestIsNumber(Pieces(s));
    LowestIsLeast(s, 0, 0);
  }

  /** A low marker, read off the text: some %n or %Ln with n up to 2. */
  lemma LowMarkerIff(name: string)
    ensures LowMarker(name) <==> exists i: nat, n: nat :: n <= 2 && PlaceMarkerAt(name, i, n)
  {
    LowestIsLeast(name, 0, 0);
    if i: nat, n: nat :| n <= 2 && PlaceMarkerAt(name, i, n) {
      LowestIsLeast(name, i, n);
    }
    if LowMarker(name) {
      var j: nat :| PlaceMarkerAt(name, j, Lowest(Pieces(name)));
      var n: nat := Lowest(Pieces(name));
      assert n <= 2 && PlaceMarkerAt(name, j, n);
    }
  }

  /** Two chained calls of arg on a two-marker template. */
  function ArgTwice(head: string, mid: string, tail: string, a: string, b: string): string {
    Arg(Arg(Template(head, "%1", mid, "%2", tail), a), b)
  }

  lemma FirstArg(head: string, mid: string, tail: string, a: string)
    requires PlainTemplate(head, mid, tail)
    ensures Arg(Template(head, "%1", mid, "%2", tail), a) == Template(head, a, mid, "%2", tail)
  {
    MarkerThen("%1", 1, "");
    assert "%1" + "" == "%1" && [Marker(1, "%1")] + Plains("") == [Marker(1, "%1")];
    assert [Marker(1, "%1")][1..] == [];
    assert Lowest(Pieces("%1")) == 1 && Fill(Pieces("%1"), 1, a) == a;
    TemplateLowest(head, "%1", mid, tail);
    TemplateFill(head, "%1", mid, tail, 1, a);
  }

  lemma SecondArg(head: string, mid: string, tail: string, a: string, b: string)
    requires PlainTemplate(head, mid, tail)
    ensures ArgTwice(head, mid, tail, a, b) ==
            if !LowMarker(a) then Template(head, a, mid, b, tail)
            else Template(head, Fill(Pieces(a), Lowest(Pieces(a)), b), mid,
                          if Lowest(Pieces(a)) == 2 then b else "%2", tail)
  {
    FirstArg(head, mid, tail, a);
    TemplateLowest(head, a, mid, tail);
    LowestIsNumber(Pieces(a));
    var n := if LowMarker(a) then Lowest(Pieces(a)) else 2;
    TemplateFill(head, a, mid, tail, n, b);
    if !LowMarker(a) {
      FillAbsent(a, 2, b);
    }
  }

  /** Chained arg calls are plain insertion, for every second argument, exactly when the first one holds no marker up to %2. */
  lemma ChainedArgIff(head: string, mid: string, tail: string, a: string)
    requires PlainTemplate(head, mid, tail)
    ensures (forall b :: ArgTwice(head, mid, tail, a, b) == Template(head, a, mid, b, tail)) <==> !LowMarker(a)
  {
    if LowMarker(a) {
      MarkedArgDiffers(head, mid, tail, a, a + "x");
    } else {
      forall b ensures ArgTwice(head, mid, tail, a, b) == Template(head, a, mid, b, tail) {
        SecondArg(head, mid, tail, a, b);
      }
    }
  }

  /** A second argument on which it goes wrong: any longer one that does not end like a marker. */
  lemma MarkedArgDiffers(head: string, mid: string, tail: string, a: string, b: string)
    requires PlainTemplate(head, mid, tail) && LowMarker(a)
    requires |b| > |a| && b[|b| - 1] != '2'
    ensures ArgTwice(head, mid, tail, a, b) != Template(head, a, mid, b, tail)
  {
    SecondArg(head, mid, tail, a, b);
    FillPresent(Pieces(a), b);
    var filled := Fill(Pieces(a), Lowest(Pieces(a)), b);
    if Lowest(Pieces(a)) == 2 {
      TemplateLength(head, filled, mid, b, tail);
      TemplateLength(head, a, mid, b, tail);
    } else {
      TemplateEnd(head, filled, mid, "%2", tail);
      TemplateEnd(head, a, mid, b, tail);
    }
  }

  lemma TemplateLength(head: string, first: string, mid: string, second: string, tail: string)
    ensures |Template(head, first, mid, second, tail)| == |head| + |first| + |mid| + |second| + |tail| + 2
  {
  }

  lemma TemplateEnd(head: string, first: string, mid: string, second: string, tail: string)
    requires second != ""
    ensures var s := Template(head, first, mid, second, tail);
            |s| > |tail| && s[|s| - |tail| - 1] == second[|second| - 1]
  {
  }

  /* ----- the commands ----- */

  /** GroupChatWindow::onSendButtonClicked, for a trimmed, non-empty message. */
  function RoomMsgCommand(room: string, message: string): string {
    ArgTwice("/room_msg", "", "\n", room, message)
  }

  /** MainWindow::joinSelectedPrivateRoom. */
  function JoinPrivateCommand(room: string, password: string): string {
    ArgTwice("/join_room", "--password ", "", room, password)
  }

  /** MainWindow::createNewRoom, after both inputs have been trimmed. */
  function CreateCommand(room: string, password: string, isPrivate: bool): string {
    var command := Arg("/create_room %1", room);
    if isPrivate && password != "" then command + Arg(" --private --password %1", password) else command
  }

  function JoinCommand(room: string): string {
    Arg("/join_room %1", room)
  }

  function RoomUsersCommand(room: string): string {
    Arg("/room_users %1", room)
  }

  /** GroupChatWindow::closeEvent. */
  function LeaveCommand(room: string): string {
    Arg("/leave_room %1\n", room)
  }

  /** ChatClient::sendMessage: what goes over the wire. */
  function Wire(message: string): string {
    message + "\n"
  }

  lemma RoomMsgTemplate()
    ensures Template("/room_msg", "%1", "", "%2", "\n") == "/room_msg %1 %2\n"
  {
  }

  lemma RoomMsgCommandText(room: string, message: string)
    requires !LowMarker(room)
    ensures RoomMsgCommand(room, message) == "/room_msg " + (room + " " + message) + "\n"
  {
    ChainedArgIff("/room_msg", "", "\n", room);
    assert Template("/room_msg", room, "", message, "\n") == "/room_msg " + (room + " " + message) + "\n";
  }

  lemma JoinPrivateCommandText(room: string, password: string)
    requires !LowMarker(room)
    ensures JoinPrivateCommand(room, password) == "/join_room " + PasswordTail(room, password)
  {
    assert PlainTemplate("/join_room", "--password ", "");
    ChainedArgIff("/join_room", "--password ", "", room);
    JoinTemplate("/join_room", room, PASSWORD, password);
    assert "--password " == PASSWORD + " " && "/join_room" + " " == "/join_room ";
  }

  lemma JoinTemplate(head: string, room: string, pat: string, password: string)
    ensures Template(head, room, pat + " ", password, "") == head + " " + (room + " " + (pat + " " + password))
  {
  }

  /** A command word, a space, and one argument at the end. */
  lemma ArgLast(template: string, head: string, a: string)
    requires '%' !in head && template == head + "%1"
    ensures Arg(template, a) == head + a
  {
    ArgOnce(head, a, "");
    assert head + "%1" + "" == template && head + a + "" == head + a;
  }

  lemma JoinCommandText(room: string)
    ensures JoinCommand(room) == "/join_room " + room
  {
    ArgLast("/join_room %1", "/join_room ", room);
  }

  lemma RoomUsersCommandText(room: string)
    ensures RoomUsersCommand(room) == "/room_users " + room
  {
    ArgLast("/room_users %1", "/room_users ", room);
  }

  lemma LeaveCommandText(room: string)
    ensures LeaveCommand(room) == "/leave_room " + room + "\n"
  {
    ArgOnce("/leave_room ", room, "\n");
    assert "/leave_room " + "%1" + "\n" == "/leave_room %1\n";
  }

  lemma CreateCommandText(room: string, password: string, isPrivate: bool)
    ensures CreateCommand(room, password, isPrivate) ==
            "/create_room " + if isPrivate && password != "" then PrivateTail(room, password) else room
  {
    CreateBaseText(room);
    if isPrivate && password != "" {
      PrivateOptionsText(password);
      JoinTail("/create_room ", room, PRIVATE, PASSWORD, password);
    }
  }

  lemma CreateBaseText(room: string)
    ensures Arg("/create_room %1", room) == "/create_room " + room
  {
    ArgLast("/create_room %1", "/create_room ", room);
  }

  lemma JoinTail(head: string, room: string, a: string, b: string, password: string)
    ensures (head + room) + (" " + a + " " + b + " " + password) == head + (room + " " + (a + " " + (b + " " + password)))
  {
  }

  lemma PrivateOptionsText(password: string)
    ensures Arg(" --private --password %1", password) == " " + PRIVATE + " " + PASSWORD + " " + password
  {
    var head := OptionsHead();
    ArgLast(" --private --password %1", head, password);
  }

  lemma OptionsHead() returns (head: string)
    ensures head == " " + PRIVATE + " " + PASSWORD + " "
    ensures '%' !in head && " --private --password %1" == head + "%1"
  {
    head := " --private --password ";
    assert head == " " + PRIVATE + " " + PASSWORD + " ";
  }
}
