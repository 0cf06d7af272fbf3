/**
 * The IMAP message wrapper that walks a MIME part tree (section 5.1 of RFC 2046)
 * to find the attachments and the content type the body should be read from.
 *
 * Headers are taken as already parsed: a part carries its Content-Type (media
 * type and `name` parameter) and, for a leaf, the raw Content-Disposition value.
 */
module MimeMessage {
  import opened PhpValues

  /** A parsed Content-Type header: the media type and its `name` parameter. */
  datatype ContentType = ContentType(mediaType: string, name: Option<string>)

  /** A MIME part: a leaf with its headers, or a multipart with its sub-parts. */
  datatype Part =
    | Leaf(contentType: Option<ContentType>, disposition: Option<string>)
    | Multipart(contentType: Option<ContentType>, parts: seq<Part>)

  /** `strtolower` on ASCII letters. */
  function LowerChar(c: char): char
  {
    if 'A' <= c <= 'Z' then (c as int + 32) as char else c
  }

  function ToLower(s: string): (r: string)
    ensures |r| == |s|
    ensures forall i :: 0 <= i < |s| ==> r[i] == LowerChar(s[i])
  {
    seq(|s|, i requires 0 <= i < |s| => LowerChar(s[i]))
  }

  predicate IsHtml(ct: ContentType)
  {
    ToLower(ct.mediaType) == "text/html"
  }

  predicate IsPlain(ct: ContentType)
  {
    ToLower(ct.mediaType) == "text/plain"
  }

  // ---------------------------------------------------------------------------
  // Attachments
  // ---------------------------------------------------------------------------

  /** A leaf is an attachment when it has a Content-Type with a `name`, or a Content-Disposition. */
  predicate IsAttachment(part: Part)
  {
    part.Leaf? && part.contentType.Some? && (part.contentType.value.name.Some? || part.disposition.Some?)
  }

  /**
   * `getPartAttachment`: the attachment a leaf stands for, if any. A `name` parameter marks
   * an attachment even without Content-Disposition (which RFC 2183 introduced later), and a
   * Content-Disposition marks one even without `name`; without a Content-Type it is never one.
   */
  function PartAttachment(part: Part): (r: Option<Part>)
    requires part.Leaf?
    ensures r.Some? <==> part.contentType.Some? && (part.contentType.value.name.Some? || part.disposition.Some?)
    ensures r.Some? ==> r.value == part
  {
    match part.contentType
    case None => None
    case Some(contentType) =>
      if contentType.name.Some? || part.disposition.Some? then Some(part) else None
  }

  /** `getMultiPartAttachments`. */
  function MultiPartAttachments(multiPart: Part): seq<Part>
    requires multiPart.Multipart?
    decreases multiPart, 1
  {
    CollectAttachments(multiPart.parts, 0, [])
  }

  /**
   * The loop of `getMultiPartAttachments` from child `i` on, with `result` collected so far:
   * a nested multipart's attachments go before `result`, a leaf attachment after it.
   */
  function CollectAttachments(parts: seq<Part>, i: nat, result: seq<Part>): seq<Part>
    requires i <= |parts|
    decreases parts, 0, |parts| - i
  {
    if i == |parts| then result
    else
      var part := parts[i];
      if part.Multipart? then
        CollectAttachments(parts, i + 1, MultiPartAttachments(part) + result)
      else
        match PartAttachment(part)
        case Some(attachment) => CollectAttachments(parts, i + 1, result + [attachment])
        case None => CollectAttachments(parts, i + 1, result)
  }

  /** `getAttachments`: only a multipart message has attachments. */
  function GetAttachments(message: Part): (r: seq<Part>)
    ensures !message.Multipart? ==> r == []
    ensures forall a :: a in r ==> IsAttachment(a)
  {
    if message.Multipart? then
      AttachmentsAreAttachmentLeaves(message);
      MultiPartAttachments(message)
    else []
  }

  // ---------------------------------------------------------------------------
  // The preferred content type
  // ---------------------------------------------------------------------------

  /**
   * `getMultiPartPriorContentType`: the first text/html type met, else the last text/plain
   * one among the direct children (a nested multipart contributing its own choice), else null.
   */
  function MultiPartPriorContentType(multiPart: Part): (r: Option<ContentType>)
    requires multiPart.Multipart?
    ensures r.None? || IsHtml(r.value) || IsPlain(r.value)
    decreases multiPart, 1
  {
    PriorFrom(multiPart.parts, 0, None)
  }

  /** The loop of `getMultiPartPriorContentType` from child `i` on; `text` is the last text/plain type seen. */
  function PriorFrom(parts: seq<Part>, i: nat, text: Option<ContentType>): (r: Option<ContentType>)
    requires i <= |parts|
    requires text.None? || IsPlain(text.value)
    ensures r.None? || IsHtml(r.value) || IsPlain(r.value)
    decreases parts, 0, |parts| - i
  {
    if i == |parts| then text
    else
      var part := parts[i];
      var contentType := if part.Multipart? then MultiPartPriorContentType(part) else part.contentType;
      if contentType.Some? && IsHtml(contentType.value) then
        contentType  // html is the preferred part
      else if contentType.Some? && IsPlain(contentType.value) then
        PriorFrom(parts, i + 1, contentType)
      else
        PriorFrom(parts, i + 1, text)
  }

  /** `getPriorContentType`: a single-part message gives its own Content-Type, whatever it is. */
  function PriorContentType(message: Part): (r: Option<ContentType>)
    ensures !message.Multipart? ==> r == message.contentType
    ensures message.Multipart? ==> r.None? || IsHtml(r.value) || IsPlain(r.value)
  {
    if message.Multipart? then MultiPartPriorContentType(message) else message.contentType
  }

  // ---------------------------------------------------------------------------
  // Reference definitions over the leaves of the tree
  // ---------------------------------------------------------------------------

  /** The leaves of a part, in depth-first document order. */
  function Leaves(part: Part): seq<Part>
    decreases part, 1
  {
    match part
    case Leaf(_, _) => [part]
    case Multipart(_, parts) => LeavesOf(parts)
  }

  function LeavesOf(parts: seq<Part>): seq<Part>
    decreases parts, 0
  {
    if parts == [] then [] else Leaves(parts[0]) + LeavesOf(parts[1..])
  }

  /** The attachment leaves among `leaves`, in order. */
  function AttachmentLeaves(leaves: seq<Part>): seq<Part>
  {
    if leaves == [] then []
    else (if IsAttachment(leaves[0]) then [leaves[0]] else []) + AttachmentLeaves(leaves[1..])
  }

  /** The Content-Type of the first leaf whose type is text/html. */
  function FirstHtml(leaves: seq<Part>): Option<ContentType>
  {
    if leaves == [] then None
    else if leaves[0].contentType.Some? && IsHtml(leaves[0].contentType.value) then leaves[0].contentType
    else FirstHtml(leaves[1..])
  }

  /** The Content-Type of the last leaf whose type is text/plain. */
  function LastPlain(leaves: seq<Part>): Option<ContentType>
  {
    if leaves == [] then None
    else
      var last := leaves[|leaves| - 1];
      if last.contentType.Some? && IsPlain(last.contentType.value) then last.contentType
      else LastPlain(leaves[..|leaves| - 1])
  }

  /** Attachments of the nested multiparts among `parts`, the last multipart's first. */
  function NestedAttachments(parts: seq<Part>): seq<Part>
    decreases parts
  {
    if parts == [] then []
    else NestedAttachments(parts[1..]) + (if parts[0].Multipart? then MultiPartAttachments(parts[0]) else [])
  }

  /** The attachments among the direct leaf children of `parts`, in order. */
  function DirectAttachments(parts: seq<Part>): seq<Part>
  {
    if parts == [] then []
    else (if IsAttachment(parts[0]) then [parts[0]] else []) + DirectAttachments(parts[1..])
  }

  // ---------------------------------------------------------------------------
  // Lemmas
  // ---------------------------------------------------------------------------

  lemma {:induction false} AttachmentLeavesAppend(a: seq<Part>, b: seq<Part>)
    ensures AttachmentLeaves(a + b) == AttachmentLeaves(a) + AttachmentLeaves(b)
  {
    if a == [] {
      assert a + b == b;
    } else {
      assert (a + b)[0] == a[0];
      assert (a + b)[1..] == a[1..] + b;
      AttachmentLeavesAppend(a[1..], b);
    }
  }

  /**
   * The order the walker produces: from child `i` on, the attachments of the nested
   * multiparts (last multipart first) go before `result`, and the attachments among
   * the direct leaf children come after it in document order.
   */
  lemma {:induction false} CollectAttachmentsOrder(parts: seq<Part>, i: nat, result: seq<Part>)
    requires i <= |parts|
    ensures CollectAttachments(parts, i, result)
              == NestedAttachments(parts[i..]) + result + DirectAttachments(parts[i..])
    decreases |parts| - i
  {
    if i == |parts| {
      assert parts[i..] == [];
    } else {
      var part := parts[i];
      assert parts[i..][1..] == parts[i + 1..];
      if part.Multipart? {
        CollectAttachmentsOrder(parts, i + 1, MultiPartAttachments(part) + result);
      } else if IsAttachment(part) {
        CollectAttachmentsOrder(parts, i + 1, result + [part]);
      } else {
        CollectAttachmentsOrder(parts, i + 1, result);
      }
    }
  }

  lemma {:induction false} AttachmentLeavesAreAttachments(leaves: seq<Part>)
    ensures forall a :: a in AttachmentLeaves(leaves) ==> IsAttachment(a)
  {
    if leaves != [] {
      AttachmentLeavesAreAttachments(leaves[1..]);
    }
  }

  /**
   * The attachments of a multipart are exactly its attachment leaves, each once:
   * the same multiset as the attachment leaves in document order.
   */
  lemma {:induction false} AttachmentsAreAttachmentLeaves(multiPart: Part)
    requires multiPart.Multipart?
    ensures multiset(MultiPartAttachments(multiPart)) == multiset(AttachmentLeaves(Leaves(multiPart)))
    ensures forall a :: a in MultiPartAttachments(multiPart) ==> IsAttachment(a)
    decreases multiPart, 1
  {
    var parts := multiPart.parts;
    CollectAttachmentsOrder(parts, 0, []);
    assert parts[0..] == parts;
    assert MultiPartAttachments(multiPart) == NestedAttachments(parts) + DirectAttachments(parts);
    NestedAndDirectAreAttachmentLeaves(parts);
    AttachmentLeavesAreAttachments(Leaves(multiPart));
    forall a | a in MultiPartAttachments(multiPart) ensures IsAttachment(a) {
      assert multiset(MultiPartAttachments(multiPart))[a] > 0;
      assert a in multiset(AttachmentLeaves(Leaves(multiPart)));
    }
  }

  lemma {:induction false} NestedAndDirectAreAttachmentLeaves(parts: seq<Part>)
    ensures multiset(NestedAttachments(parts)) + multiset(DirectAttachments(parts))
              == multiset(AttachmentLeaves(LeavesOf(parts)))
    decreases parts, 0
  {
    if parts != [] {
      var part := parts[0];
      var tail := parts[1..];
      NestedAndDirectAreAttachmentLeaves(tail);
      AttachmentLeavesAppend(Leaves(part), LeavesOf(tail));
      assert LeavesOf(parts) == Leaves(part) + LeavesOf(tail);
      var own := if part.Multipart? then MultiPartAttachments(part) else [];
      var direct := if IsAttachment(part) then [part] else [];
      assert NestedAttachments(parts) == NestedAttachments(tail) + own;
      assert DirectAttachments(parts) == direct + DirectAttachments(tail);
      OwnAttachments(part);
      assert multiset(own) + multiset(direct) == multiset(AttachmentLeaves(Leaves(part)));
    }
  }

  /** A child contributes its nested attachments (a multipart) or itself (an attachment leaf): its attachment leaves. */
  lemma {:induction false} OwnAttachments(part: Part)
    ensures multiset(if part.Multipart? then MultiPartAttachments(part) else [])
              + multiset(if IsAttachment(part) then [part] else [])
              == multiset(AttachmentLeaves(Leaves(part)))
    decreases part, 2
  {
    if part.Multipart? {
      AttachmentsAreAttachmentLeaves(part);
    } else {
      assert Leaves(part) == [part];
      assert [part][1..] == [];
    }
  }

  lemma {:induction false} FirstHtmlAppend(a: seq<Part>, b: seq<Part>)
    ensures FirstHtml(a + b) == if FirstHtml(a).Some? then FirstHtml(a) else FirstHtml(b)
  {
    if a == [] {
      assert a + b == b;
    } else {
      assert (a + b)[0] == a[0];
      assert (a + b)[1..] == a[1..] + b;
      FirstHtmlAppend(a[1..], b);
    }
  }

  lemma {:induction false} LastPlainAppend(a: seq<Part>, b: seq<Part>)
    ensures LastPlain(a + b) == if LastPlain(b).Some? then LastPlain(b) else LastPlain(a)
    decreases |b|
  {
    if b == [] {
      assert a + b == a;
    } else {
      assert (a + b)[..|a + b| - 1] == a + b[..|b| - 1];
      LastPlainAppend(a, b[..|b| - 1]);
    }
  }

  lemma {:induction false} FirstHtmlExists(leaves: seq<Part>)
    ensures FirstHtml(leaves).Some? <==>
              exists j :: 0 <= j < |leaves| && leaves[j].contentType.Some? && IsHtml(leaves[j].contentType.value)
    ensures FirstHtml(leaves).Some? ==> IsHtml(FirstHtml(leaves).value)
  {
    if leaves != [] {
      FirstHtmlExists(leaves[1..]);
      if exists j :: 0 <= j < |leaves| && leaves[j].contentType.Some? && IsHtml(leaves[j].contentType.value) {
        var j :| 0 <= j < |leaves| && leaves[j].contentType.Some? && IsHtml(leaves[j].contentType.value);
        if j > 0 {
          assert leaves[1..][j - 1] == leaves[j];
        }
      }
    }
  }

  lemma {:induction false} LastPlainIsPlain(leaves: seq<Part>)
    ensures LastPlain(leaves).Some? ==> IsPlain(LastPlain(leaves).value)
  {
    if leaves != [] {
      LastPlainIsPlain(leaves[..|leaves| - 1]);
    }
  }

  lemma HtmlIsNotPlain(ct: ContentType)
    ensures !(IsHtml(ct) && IsPlain(ct))
  {
  }

  /**
   * What `getMultiPartPriorContentType` chooses, stated over the leaves: the first
   * text/html type in document order when there is one, and otherwise the last
   * text/plain one (or null when there is none).
   */
  lemma {:induction false} MultiPartPriorIsFirstHtmlElseLastPlain(multiPart: Part)
    requires multiPart.Multipart?
    ensures var leaves := Leaves(multiPart);
            MultiPartPriorContentType(multiPart)
              == if FirstHtml(leaves).Some? then FirstHtml(leaves) else LastPlain(leaves)
    decreases multiPart, 1
  {
    PriorFromChoice(multiPart.parts, 0, None);
    assert multiPart.parts[0..] == multiPart.parts;
  }

  lemma {:induction false} PriorFromChoice(parts: seq<Part>, i: nat, text: Option<ContentType>)
    requires i <= |parts|
    requires text.None? || IsPlain(text.value)
    ensures var leaves := LeavesOf(parts[i..]);
            PriorFrom(parts, i, text)
              == if FirstHtml(leaves).Some? then FirstHtml(leaves)
                 else if LastPlain(leaves).Some? then LastPlain(leaves)
                 else text
    decreases parts, 0, |parts| - i
  {
    if i == |parts| {
      assert parts[i..] == [];
    } else {
      var part := parts[i];
      assert parts[i..][1..] == parts[i + 1..];
      var own := Leaves(part);
      var rest := LeavesOf(parts[i + 1..]);
      assert LeavesOf(parts[i..]) == own + rest;
      FirstHtmlAppend(own, rest);
      LastPlainAppend(own, rest);
      FirstHtmlExists(own);
      LastPlainIsPlain(own);
      PriorFromChoice(parts, i + 1, text);
      if part.Multipart? {
        MultiPartPriorIsFirstHtmlElseLastPlain(part);
      } else {
        assert own == [part];
        assert [part][1..] == [];
        assert [part][..0] == [];
      }
      var contentType := if part.Multipart? then MultiPartPriorContentType(part) else part.contentType;
      if contentType.Some? {
        HtmlIsNotPlain(contentType.value);
        if IsPlain(contentType.value) {
          PriorFromChoice(parts, i + 1, contentType);
        }
      }
    }
  }

  /**
   * The preferred type of a multipart message is text/html exactly when some leaf of
   * the tree has a text/html Content-Type (the first one is chosen); otherwise it is the
   * last text/plain leaf's, or null.
   */
  lemma PriorContentTypeChoice(message: Part)
    requires message.Multipart?
    ensures var r := PriorContentType(message);
            var leaves := Leaves(message);
            && ((r.Some? && IsHtml(r.value)) <==>
                  exists j :: 0 <= j < |leaves| && leaves[j].contentType.Some? && IsHtml(leaves[j].contentType.value))
            && (FirstHtml(leaves).Some? ==> r == FirstHtml(leaves))
            && (FirstHtml(leaves).None? ==> r == LastPlain(leaves))
  {
    var leaves := Leaves(message);
    MultiPartPriorIsFirstHtmlElseLastPlain(message);
    FirstHtmlExists(leaves);
    LastPlainIsPlain(leaves);
    var r := PriorContentType(message);
    if r.Some? {
      HtmlIsNotPlain(r.value);
    }
  }

  /**
   * The attachments of a message: none for a single part; for a multipart, exactly its
   * attachment leaves, each once, with every attachment of a nested multipart placed
   * before the attachments among the top-level leaves.
   */
  lemma GetAttachmentsSpec(message: Part)
    ensures !message.Multipart? ==> GetAttachments(message) == []
    ensures message.Multipart? ==>
              && multiset(GetAttachments(message)) == multiset(AttachmentLeaves(Leaves(message)))
              && GetAttachments(message) == NestedAttachments(message.parts) + DirectAttachments(message.parts)
  {
    if message.Multipart? {
      var parts := message.parts;
      assert GetAttachments(message) == MultiPartAttachments(message);
      AttachmentsAreAttachmentLeaves(message);
      CollectAttachmentsOrder(parts, 0, []);
      assert parts[0..] == parts;
    }
  }
}
