/** The Telegram side of `TelegramObavestenje`: `send_msg`, `edit` and
    `send_img`, with the Bot API as an oracle. Each cycle numbers its API
    calls from 0; `api(k)` is the reply to the k-th call, and every function
    here takes the calls made so far and returns them with its own appended. */
module Dispatch {
  import opened Wrappers
  import opened Formatting

  /** A sent message; only its id is used (for `edit_message_text`). */
  datatype Message = Message(id: nat)

  /** The Bot API calls the script makes (chat id and parse mode, always the
      configured chat and 'html', are left implicit). */
  datatype ApiCall =
    | SendMessage(text: string)
    | EditMessageText(messageId: nat, text: string)
    | SendPhoto(photo: string)

  /** A reply: the resulting message, a `telegram.error.BadRequest`, or any
      other Telegram error (network, timeout, ...), which nothing catches. */
  datatype Reply = Delivered(message: Message) | BadRequest | OtherError

  /** Why a run of the script stops: `exit()` after sixteen failed fetches,
      or an exception nothing catches. */
  datatype Fault =
    | Exit
    | IndexError          // a selector matched nothing
    | KeyError            // an img without src
    | UnboundLocalError   // edit before any message was sent
    | AttributeError      // `.text` read on a str in the plain-text fallback
    | BadRequestError
    | TelegramError

  /** The result of `send_msg` or `edit` and the calls made so far. */
  datatype Dispatched = Dispatched(result: Result<Message, Fault>, calls: seq<ApiCall>)

  /** The result of `send_img` calls: the fault that escaped, if any. */
  datatype Attached = Attached(fault: Option<Fault>, calls: seq<ApiCall>)

  /** The message text: `"\n".join([naslov, sadrzaj])`. */
  function Caption(n: Notice): string
  {
    n.title + "\n" + n.body
  }

  /** `send_msg`: one `send_message` with the formatted text. On BadRequest
      the fallback builds its payload from `self.html_sadrzaj.text`, and
      `html_sadrzaj` is a str, so it raises AttributeError before a second
      call is made. */
  function SendMsg(n: Notice, api: nat -> Reply, calls: seq<ApiCall>): (d: Dispatched)
    ensures d.calls == calls + [SendMessage(Caption(n))]
    ensures d.result.Ok? <==> api(|calls|).Delivered?
    ensures d.result.Ok? ==> d.result.value == api(|calls|).message
    ensures api(|calls|).BadRequest? ==> d.result == Err(AttributeError)
    ensures api(|calls|).OtherError? ==> d.result == Err(TelegramError)
  {
    var sent := calls + [SendMessage(Caption(n))];
    match api(|calls|)
    case Delivered(m) => Dispatched(Ok(m), sent)
    case BadRequest => Dispatched(Err(AttributeError), sent)
    case OtherError => Dispatched(Err(TelegramError), sent)
  }

  /** `edit`: one `edit_message_text` of message `m` with the formatted text;
      its BadRequest fallback raises AttributeError as `send_msg`'s does. */
  function EditMsg(n: Notice, m: Message, api: nat -> Reply, calls: seq<ApiCall>): (d: Dispatched)
    ensures d.calls == calls + [EditMessageText(m.id, Caption(n))]
    ensures d.result.Ok? <==> api(|calls|).Delivered?
    ensures d.result.Ok? ==> d.result.value == api(|calls|).message
    ensures api(|calls|).BadRequest? ==> d.result == Err(AttributeError)
    ensures api(|calls|).OtherError? ==> d.result == Err(TelegramError)
  {
    var edited := calls + [EditMessageText(m.id, Caption(n))];
    match api(|calls|)
    case Delivered(m') => Dispatched(Ok(m'), edited)
    case BadRequest => Dispatched(Err(AttributeError), edited)
    case OtherError => Dispatched(Err(TelegramError), edited)
  }

  /** Neither `send_msg` nor `edit` lets a BadRequest escape: the handler
      around the obavestenja edit (`except telegram.error.BadRequest: pass`)
      never fires. */
  lemma NoBadRequestEscapes(n: Notice, m: Message, api: nat -> Reply, calls: seq<ApiCall>)
    ensures SendMsg(n, api, calls).result != Err(BadRequestError)
    ensures EditMsg(n, m, api, calls).result != Err(BadRequestError)
  {
  }

  /** `send_img`: one `send_photo`; a BadRequest is logged and swallowed,
      any other error escapes. */
  function SendImg(src: string, api: nat -> Reply, calls: seq<ApiCall>): (a: Attached)
    ensures a.calls == calls + [SendPhoto(src)]
    ensures a.fault.None? <==> !api(|calls|).OtherError?
    ensures a.fault.Some? ==> a.fault.value == TelegramError
  {
    var sent := calls + [SendPhoto(src)];
    if api(|calls|).OtherError? then Attached(Some(TelegramError), sent) else Attached(None, sent)
  }

  /** The photo calls for the given sources, in order. */
  function Photos(srcs: seq<string>): seq<ApiCall>
  {
    if srcs == [] then [] else [SendPhoto(srcs[0])] + Photos(srcs[1..])
  }

  /** Every img from position `base` of the cycle's call numbering on has a
      src, and no photo call among them meets a non-BadRequest error. */
  predicate AllAttach(images: seq<Option<string>>, api: nat -> Reply, base: nat)
  {
    forall i :: 0 <= i < |images| ==> images[i].Some? && !api(base + i).OtherError?
  }

  lemma AllAttachSplit(images: seq<Option<string>>, api: nat -> Reply, base: nat)
    requires images != []
    ensures AllAttach(images, api, base) <==>
      images[0].Some? && !api(base).OtherError? && AllAttach(images[1..], api, base + 1)
  {
    if images[0].Some? && !api(base).OtherError? && AllAttach(images[1..], api, base + 1) {
      forall i | 0 <= i < |images|
        ensures images[i].Some? && !api(base + i).OtherError?
      {
        if i > 0 {
          assert images[i] == images[1..][i - 1];
          assert base + i == (base + 1) + (i - 1);
        }
      }
    }
    if AllAttach(images, api, base) {
      assert images[0].Some? && !api(base + 0).OtherError?;
      assert base + 0 == base;
      var tail := images[1..];
      forall i | 0 <= i < |tail|
        ensures tail[i].Some? && !api(base + 1 + i).OtherError?
      {
        assert tail[i] == images[i + 1];
        assert base + 1 + i == base + (i + 1);
        assert images[i + 1].Some? && !api(base + (i + 1)).OtherError?;
      }
      assert AllAttach(tail, api, base + 1);
    }
  }

  /** The sources of images that all have one, in order. */
  function Sources(images: seq<Option<string>>): seq<string>
    requires forall i :: 0 <= i < |images| ==> images[i].Some?
  {
    if images == [] then [] else [images[0].value] + Sources(images[1..])
  }

  /** The image loop after a new message: `send_img(tag['src'])` for each img
      in document order, stopping at an img without src (KeyError) or at an
      error `send_img` lets through. */
  function SendImages(images: seq<Option<string>>, api: nat -> Reply, calls: seq<ApiCall>): (a: Attached)
    ensures |calls| <= |a.calls| <= |calls| + |images|
    ensures a.calls[..|calls|] == calls
    ensures a.fault.None? <==> AllAttach(images, api, |calls|)
    ensures a.fault.None? ==> a.calls == calls + Photos(Sources(images))
    ensures a.fault.Some? ==> a.fault.value in {KeyError, TelegramError}
    decreases |images|
  {
    if images == [] then Attached(None, calls)
    else match images[0]
      case None => Attached(Some(KeyError), calls)
      case Some(src) =>
        var one := SendImg(src, api, calls);
        if one.fault.Some? then one
        else
          var rest := SendImages(images[1..], api, one.calls);
          AllAttachSplit(images, api, |calls|);
          rest
  }
}
