/** `notifyAboutNewFine`: the messages and photos sent for a new fine, and
    the clean-up of its temporary files, as a trace of effects. */
module Notifier {
  import opened Optional
  import opened Strings
  import opened Fines
  import opened Effects

  const Heading := "\U{1F6D1} Новое нарушение:"
  const ProtocolTag := "\U{1F4C4} Протокол: "
  const CarTag := "\U{1F697} Авто: "
  const DateTag := "\U{1F4C5} Дата: "
  const ViolationTag := "\U{1F4D8} Нарушение: "
  const AmountTag := "\U{1F4B5} Сумма: "
  const TotalTag := "\U{1F4B0} Итого: "

  /** How the chat channel answers the sends for one fine: whether the text
      message and the protocol-number message are accepted (a rejection is
      thrown out of the notifier), and the indices of the photos it rejects
      (each such rejection is caught and logged). */
  datatype Delivery = Delivery(textAccepted: bool, numberAccepted: bool, rejectedPhotos: set<nat>)

  /** The effects of one notification, and whether it returned normally. */
  datatype Notification = Notification(trace: seq<Event>, delivered: bool)

  /** The lines of the template message. */
  function MessageLines(f: Fine): seq<string> {
    [ Heading,
      "",
      ProtocolTag + f.protocolNumber,
      CarTag + f.carNumber,
      DateTag + f.date,
      ViolationTag + f.violationCode,
      AmountTag + f.amount,
      TotalTag + f.totalAmount ]
  }

  /** The text message announcing `f`. */
  function Message(f: Fine): string {
    JoinLines(MessageLines(f))
  }

  /** Reads the six fields back out of an announcement, line by line. */
  function ParseMessage(text: string): Option<Fine> {
    var lines := SplitLines(text);
    if |lines| == 8 && lines[0] == Heading && lines[1] == ""
       && ProtocolTag <= lines[2] && CarTag <= lines[3] && DateTag <= lines[4]
       && ViolationTag <= lines[5] && AmountTag <= lines[6] && TotalTag <= lines[7]
    then
      Some(Fine(
        lines[2][|ProtocolTag|..],
        lines[3][|CarTag|..],
        lines[4][|DateTag|..],
        lines[5][|ViolationTag|..],
        lines[6][|AmountTag|..],
        lines[7][|TotalTag|..],
        []))
    else None
  }

  /** A field that holds no line break. */
  predicate SingleLine(s: string) {
    '\n' !in s
  }

  lemma TagDrop(tag: string, value: string)
    ensures (tag + value)[|tag|..] == value
  {
  }

  /** The announcement carries the six fields of the fine, in order, each
      on its own labelled line: they can be read back exactly. */
  lemma MessageRoundTrip(f: Fine)
    requires SingleLine(f.protocolNumber) && SingleLine(f.carNumber) && SingleLine(f.date)
    requires SingleLine(f.violationCode) && SingleLine(f.amount) && SingleLine(f.totalAmount)
    ensures ParseMessage(Message(f)) == Some(f.(images := []))
  {
    var lines := MessageLines(f);
    forall k | 0 <= k < |lines|
      ensures '\n' !in lines[k]
    {
      assert '\n' !in Heading && '\n' !in ProtocolTag && '\n' !in CarTag && '\n' !in DateTag;
      assert '\n' !in ViolationTag && '\n' !in AmountTag && '\n' !in TotalTag;
    }
    SplitJoin(lines);
    TagDrop(ProtocolTag, f.protocolNumber);
    TagDrop(CarTag, f.carNumber);
    TagDrop(DateTag, f.date);
    TagDrop(ViolationTag, f.violationCode);
    TagDrop(AmountTag, f.amount);
    TagDrop(TotalTag, f.totalAmount);
  }

  /** The photo loop from image `index` on: each photo is offered to the
      channel and its file deleted right after, whether or not the channel
      took it. */
  function PhotoEvents(images: seq<string>, rejected: set<nat>, index: nat): (t: seq<Event>)
    ensures |t| == 2 * |images|
    ensures forall k :: 0 <= k < |images| ==>
              t[2 * k] == SendPhoto(images[k], index + k !in rejected) && t[2 * k + 1] == DeleteFile(images[k])
    decreases |images|
  {
    if |images| == 0 then []
    else
      var rest := PhotoEvents(images[1..], rejected, index + 1);
      var t := [SendPhoto(images[0], index !in rejected), DeleteFile(images[0])] + rest;
      assert forall k :: 0 <= k < |images| ==>
               t[2 * k] == SendPhoto(images[k], index + k !in rejected) && t[2 * k + 1] == DeleteFile(images[k])
      by {
        forall k | 1 <= k < |images|
          ensures t[2 * k] == SendPhoto(images[k], index + k !in rejected)
          ensures t[2 * k + 1] == DeleteFile(images[k])
        {
          var j := k - 1;
          assert images[k] == images[1..][j];
          assert t[2 * k] == rest[2 * j];
          assert t[2 * k + 1] == rest[2 * j + 1];
        }
      }
      t
  }

  /** `notifyAboutNewFine`: the text message, then the bare protocol
      number, then each photo followed by the deletion of its file. A
      rejected message ends the notification there, by an exception. */
  function Notify(f: Fine, d: Delivery): (n: Notification)
    ensures n.delivered <==> d.textAccepted && d.numberAccepted
    ensures 0 < |n.trace| && n.trace[0] == SendText(Message(f))
    ensures !d.textAccepted ==> |n.trace| == 1
    ensures d.textAccepted ==> 2 <= |n.trace| && n.trace[1] == SendText(f.protocolNumber)
    ensures d.textAccepted && !d.numberAccepted ==> |n.trace| == 2
    ensures n.delivered ==>
              && |n.trace| == 2 + 2 * |f.images|
              && forall k :: 0 <= k < |f.images| ==>
                   n.trace[2 + 2 * k] == SendPhoto(f.images[k], k !in d.rejectedPhotos)
                   && n.trace[3 + 2 * k] == DeleteFile(f.images[k])
  {
    if !d.textAccepted then Notification([SendText(Message(f))], false)
    else if !d.numberAccepted then Notification([SendText(Message(f)), SendText(f.protocolNumber)], false)
    else
      var t := [SendText(Message(f)), SendText(f.protocolNumber)] + PhotoEvents(f.images, d.rejectedPhotos, 0);
      Notification(t, true)
  }

  /** The paths of the files a trace deletes, in order. */
  function Deleted(trace: seq<Event>): seq<string>
    decreases |trace|
  {
    if |trace| == 0 then []
    else if trace[0].DeleteFile? then [trace[0].path] + Deleted(trace[1..])
    else Deleted(trace[1..])
  }

  lemma DeletedAppend(a: seq<Event>, b: seq<Event>)
    ensures Deleted(a + b) == Deleted(a) + Deleted(b)
    decreases |a|
  {
    if |a| == 0 {
      assert a + b == b;
    } else {
      assert (a + b)[0] == a[0];
      assert (a + b)[1..] == a[1..] + b;
      DeletedAppend(a[1..], b);
    }
  }

  lemma {:induction false} PhotoEventsDeleteAll(images: seq<string>, rejected: set<nat>, index: nat)
    ensures Deleted(PhotoEvents(images, rejected, index)) == images
    decreases |images|
  {
    if |images| > 0 {
      var rest := PhotoEvents(images[1..], rejected, index + 1);
      var head := [SendPhoto(images[0], index !in rejected), DeleteFile(images[0])];
      PhotoEventsDeleteAll(images[1..], rejected, index + 1);
      DeletedAppend(head, rest);
      assert Deleted(head) == [images[0]];
      assert [images[0]] + images[1..] == images;
    }
  }

  /** A delivered notification deletes every temporary image of the fine,
      in order, exactly once, whichever photos the channel rejected. */
  lemma NotifyDeletesEveryImage(f: Fine, d: Delivery)
    requires d.textAccepted && d.numberAccepted
    ensures Deleted(Notify(f, d).trace) == f.images
  {
    var head := [SendText(Message(f)), SendText(f.protocolNumber)];
    PhotoEventsDeleteAll(f.images, d.rejectedPhotos, 0);
    DeletedAppend(head, PhotoEvents(f.images, d.rejectedPhotos, 0));
    assert Deleted(head) == [];
  }
}
