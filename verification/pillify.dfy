/**
 * pillifyLinks: a walk over a message's DOM that replaces matrix.to links with link pills and,
 * when the room's `.m.rule.roomnotif` push rule matches the event, every "@room" token of a
 * text node with a mention pill.
 *
 * The DOM is a tree of nodes; a list of siblings is a sequence walked with an index standing
 * for pillifyLinks' `node` pointer. The token finder, the pill-URL test, the push-rule
 * evaluation and the rendering of a pill are parameters known only by their contracts.
 */
module Pillify {
  import opened Wrappers

  /** Class of the element that a rendered "@room" pill puts around its text. */
  const AtRoomPillClass: string := "mx_AtRoomPill"

  /** Identifier of the push rule deciding whether "@room" notifies. */
  const RoomNotifRuleId: string := ".m.rule.roomnotif"

  /** A rendered pill. A link pill carries its URL; a mention pill always shows its avatar. */
  datatype Pill =
    | LinkPill(url: string, room: Option<string>, shouldShowPillAvatar: bool)
    | AtRoomMention(room: Option<string>)

  /**
   * A DOM node. A pill container is the span (without classes) a pill was rendered into; its
   * children are the DOM the pill rendered.
   */
  datatype Node =
    | Text(content: string)
    | Element(tagName: string, href: Option<string>, classList: set<string>, children: seq<Node>)
    | PillContainer(pill: Pill, children: seq<Node>)

  /** A push rule of the current client; how it matches an event is not modelled. */
  datatype PushRule = PushRule(ruleId: string)

  /** What the walk reads from its surroundings. */
  datatype Env = Env(
    room: Option<string>,                 // the event's room, if the client knows it
    shouldShowPillAvatar: bool,           // the "Pill.shouldShowPillAvatar" setting
    isMessagePillUrl: string -> bool,     // Pill.isMessagePillUrl
    roomNotifPos: string -> int,          // Pill.roomNotifPos
    roomNotifLen: nat,                    // Pill.roomNotifLen()
    pushRules: map<string, PushRule>,     // getPushRuleById
    ruleMatchesEvent: PushRule -> bool,   // ruleMatchesEvent(rule, mxEvent)
    renderPill: Pill -> seq<Node>)        // the DOM ReactDOM.render puts into a pill's container

  /** A new span holding a rendered "@room" mention pill. */
  function MentionPill(env: Env): Node
  {
    PillContainer(AtRoomMention(env.room), env.renderPill(AtRoomMention(env.room)))
  }

  /** A new span holding a rendered link pill for `href`. */
  function LinkPillFor(href: string, env: Env): Node
  {
    PillContainer(LinkPill(href, env.room, env.shouldShowPillAvatar),
                  env.renderPill(LinkPill(href, env.room, env.shouldShowPillAvatar)))
  }

  /**
   * The finder's contract on one text: it reports a negative number (no token), or the
   * position of the first token, which fits in the text, so that the text before it holds
   * no token and the token alone is found at position 0.
   */
  predicate FinderHit(env: Env, s: string)
  {
    var p := env.roomNotifPos(s);
    p >= 0 ==>
      && p + env.roomNotifLen <= |s|
      && env.roomNotifPos(s[..p]) < 0
      && env.roomNotifPos(s[p..p + env.roomNotifLen]) == 0
  }

  /** The token has positive length and the finder keeps its contract on every text. */
  ghost predicate ValidFinder(env: Env)
  {
    env.roomNotifLen > 0 && forall s :: FinderHit(env, s)
  }

  // ---- Splitting a text node ----

  /** A piece of a split text node: plain text, or a node holding exactly one token. */
  datatype Segment = Plain(text: string) | Token(text: string)

  /**
   * The pieces a text node is split into: the text before the first token (if any), the
   * token, then the pieces of the rest of the text after the token.
   */
  function Split(t: string, env: Env): seq<Segment>
    requires ValidFinder(env)
    decreases |t|
  {
    var p := env.roomNotifPos(t);
    if p < 0 then [Plain(t)]
    else
      assert FinderHit(env, t);
      var L := env.roomNotifLen;
      (if p > 0 then [Plain(t[..p])] else [])
      + [Token(t[p..p + L])]
      + (if |t| - p > L then Split(t[p + L..], env) else [])
  }

  function Concat(segs: seq<Segment>): string
    decreases |segs|
  {
    if segs == [] then "" else segs[0].text + Concat(segs[1..])
  }

  lemma {:induction false} ConcatAppend(a: seq<Segment>, b: seq<Segment>)
    ensures Concat(a + b) == Concat(a) + Concat(b)
    decreases |a|
  {
    if a != [] {
      assert (a + b)[0] == a[0] && (a + b)[1..] == a[1..] + b;
      ConcatAppend(a[1..], b);
      assert a[0].text + (Concat(a[1..]) + Concat(b)) == (a[0].text + Concat(a[1..])) + Concat(b);
    } else {
      assert a + b == b;
    }
  }

  /** Splitting keeps the text: the pieces put back together give the original string. */
  lemma {:induction false} SplitConcat(t: string, env: Env)
    requires ValidFinder(env)
    ensures Concat(Split(t, env)) == t
    decreases |t|
  {
    var p := env.roomNotifPos(t);
    if p >= 0 {
      var pre, tok, post := SplitFirstToken(t, env);
      var L := env.roomNotifLen;
      if |t| - p > L {
        SplitConcat(t[p + L..], env);
      }
      ConcatThree(pre, tok, post, t, p, L);
    } else {
      assert Concat([Plain(t)]) == t;
    }
  }

  /** Putting back the text before a token, the token and the text after it. */
  lemma ConcatThree(pre: seq<Segment>, tok: Segment, post: seq<Segment>, t: string, p: nat, L: nat)
    requires p + L <= |t|
    requires Concat(pre) == t[..p] && tok.text == t[p..p + L] && Concat(post) == t[p + L..]
    ensures Concat(pre + [tok] + post) == t
  {
    ConcatAppend(pre + [tok], post);
    ConcatAppend(pre, [tok]);
    assert Concat([tok]) == tok.text;
    assert t == t[..p] + t[p..p + L] + t[p + L..];
  }

  /** A piece that a rescan leaves as it is: splitting its text gives back the piece itself. */
  predicate Stable(seg: Segment, env: Env)
    requires ValidFinder(env)
  {
    Split(seg.text, env) == [seg]
  }

  /**
   * Every piece is stable: the finder reports nothing in a plain piece, and a token piece
   * has length roomNotifLen and is found at its start.
   */
  lemma {:induction false} SplitStable(t: string, env: Env)
    requires ValidFinder(env)
    ensures forall k :: 0 <= k < |Split(t, env)| ==> Stable(Split(t, env)[k], env)
    ensures forall k :: 0 <= k < |Split(t, env)| && Split(t, env)[k].Token? ==>
              |Split(t, env)[k].text| == env.roomNotifLen
    decreases |t|
  {
    var p := env.roomNotifPos(t);
    if p >= 0 {
      assert FinderHit(env, t);
      var L := env.roomNotifLen;
      var pre: seq<Segment> := if p > 0 then [Plain(t[..p])] else [];
      var tok := t[p..p + L];
      assert Split(tok, env) == [Token(tok)] by {
        assert tok[0..L] == tok;
      }
      if p > 0 {
        assert Split(t[..p], env) == [Plain(t[..p])];
      }
      if |t| - p > L {
        SplitStable(t[p + L..], env);
      }
    }
  }

  /** A split into two or more pieces starts with a non-empty piece. */
  lemma SplitHeadNonEmpty(t: string, env: Env)
    requires ValidFinder(env)
    ensures |Split(t, env)| >= 1
    ensures |Split(t, env)| >= 2 ==> |Split(t, env)[0].text| > 0
  {
    var p := env.roomNotifPos(t);
    if p >= 0 {
      assert FinderHit(env, t);
    }
  }

  /** Where the scan that found piece k began: at the plain piece just before it, or at it. */
  function ScanStart(segs: seq<Segment>, k: nat): nat
    requires k < |segs|
  {
    if k > 0 && segs[k - 1].Plain? then |Concat(segs[..k - 1])| else |Concat(segs[..k])|
  }

  /** Slices of a suffix are slices of the whole sequence, shifted. */
  lemma SliceOfSuffix<T>(t: seq<T>, base: nat, s: nat, x: nat, y: nat)
    requires base <= |t| && s <= |t| - base && x <= y <= |t| - base
    ensures t[base..][s..] == t[base + s..]
    ensures t[base..][x..y] == t[base + x..base + y]
  {
  }

  /** Offsets in a list of pieces that follows a prefix and a token. */
  lemma ShiftedOffsets(pre: seq<Segment>, tok: Segment, post: seq<Segment>, j: nat)
    requires tok.Token? && j < |post|
    ensures var segs := pre + [tok] + post;
            var base := |Concat(pre)| + |tok.text|;
            && segs[|pre| + 1 + j] == post[j]
            && |Concat(segs[..|pre| + 1 + j])| == base + |Concat(post[..j])|
            && ScanStart(segs, |pre| + 1 + j) == base + ScanStart(post, j)
  {
    var segs := pre + [tok] + post;
    var k := |pre| + 1 + j;
    assert segs[..k] == (pre + [tok]) + post[..j];
    ConcatAppend(pre + [tok], post[..j]);
    ConcatAppend(pre, [tok]);
    assert Concat([tok]) == tok.text;
    if j > 0 {
      assert segs[k - 1] == post[j - 1];
      assert segs[..k - 1] == (pre + [tok]) + post[..j - 1];
      ConcatAppend(pre + [tok], post[..j - 1]);
    } else {
      assert segs[k - 1] == tok;
    }
  }

  /** The token found by the first scan of `t` sits at the reported position. */
  lemma {:induction false} SplitFirstToken(t: string, env: Env) returns (pre: seq<Segment>, tok: Segment, post: seq<Segment>)
    requires ValidFinder(env)
    requires env.roomNotifPos(t) >= 0
    ensures env.roomNotifPos(t) + env.roomNotifLen <= |t|
    ensures pre == if env.roomNotifPos(t) > 0 then [Plain(t[..env.roomNotifPos(t)])] else []
    ensures tok == Token(t[env.roomNotifPos(t)..env.roomNotifPos(t) + env.roomNotifLen])
    ensures post == if |t| - env.roomNotifPos(t) > env.roomNotifLen
                    then Split(t[env.roomNotifPos(t) + env.roomNotifLen..], env) else []
    ensures Split(t, env) == pre + [tok] + post
    ensures Concat(pre) == t[..env.roomNotifPos(t)]
  {
    var p := env.roomNotifPos(t);
    var L := env.roomNotifLen;
    assert FinderHit(env, t);
    pre := if p > 0 then [Plain(t[..p])] else [];
    tok := Token(t[p..p + L]);
    post := if |t| - p > L then Split(t[p + L..], env) else [];
    if p > 0 {
      assert Concat([Plain(t[..p])]) == t[..p];
    }
  }

  /**
   * Where a token piece lies in `t`: it has the token's length, it sits at offset `o`, and
   * the scan that found it began at offset `st` and reported it at `o - st`.
   */
  ghost predicate TokenPlaced(t: string, seg: Segment, o: nat, st: nat, env: Env)
  {
    && |seg.text| == env.roomNotifLen
    && st <= o && o + env.roomNotifLen <= |t|
    && t[o..o + env.roomNotifLen] == seg.text
    && env.roomNotifPos(t[st..]) == o - st
  }

  /** A token placed in the text after offset `base` is placed in the whole text, shifted by `base`. */
  lemma PlacedAfterToken(t: string, base: nat, seg: Segment, o: nat, st: nat, env: Env)
    requires base <= |t|
    requires TokenPlaced(t[base..], seg, o, st, env)
    ensures TokenPlaced(t, seg, base + o, base + st, env)
  {
    SliceOfSuffix(t, base, st, o, o + env.roomNotifLen);
  }

  /** The first token piece lies where the finder reported it in the whole text. */
  lemma FirstTokenPlaced(t: string, env: Env)
    requires ValidFinder(env) && env.roomNotifPos(t) >= 0
    ensures var k := if env.roomNotifPos(t) > 0 then 1 else 0;
            && k < |Split(t, env)| && Split(t, env)[k].Token?
            && TokenPlaced(t, Split(t, env)[k], |Concat(Split(t, env)[..k])|, ScanStart(Split(t, env), k), env)
  {
    var pre, tok, post := SplitFirstToken(t, env);
    assert Split(t, env)[..|pre|] == pre;
    if |pre| > 0 {
      assert Split(t, env)[..0] == [];
    }
    assert t[0..] == t;
  }

  /** A token placed among the pieces after a token is placed among all the pieces. */
  lemma PlacedInLaterPiece(t: string, pre: seq<Segment>, tok: Segment, rest: string, post: seq<Segment>, j: nat,
                            segs: seq<Segment>, k: nat, env: Env)
    requires tok.Token? && j < |post|
    requires |Concat(pre)| + |tok.text| <= |t| && rest == t[|Concat(pre)| + |tok.text|..]
    requires TokenPlaced(rest, post[j], |Concat(post[..j])|, ScanStart(post, j), env)
    requires segs == pre + [tok] + post && k == |pre| + 1 + j
    ensures TokenPlaced(t, segs[k], |Concat(segs[..k])|, ScanStart(segs, k), env)
  {
    ShiftedOffsets(pre, tok, post, j);
    PlacedAfterToken(t, |Concat(pre)| + |tok.text|, post[j], |Concat(post[..j])|, ScanStart(post, j), env);
  }

  /** A token piece that is not the piece after the plain prefix lies in the tail. */
  lemma TokenPastFirst(segs: seq<Segment>, pre: seq<Segment>, tok: Segment, tail: seq<Segment>, k: nat)
    requires segs == pre + [tok] + tail && k < |segs| && segs[k].Token? && k != |pre|
    requires forall i :: 0 <= i < |pre| ==> pre[i].Plain?
    ensures |pre| < k && k - |pre| - 1 < |tail| && tail[k - |pre| - 1] == segs[k]
  {
    assert forall x :: 0 <= x < |pre| ==> segs[x] == pre[x];
  }

  /** The split of the text after the first token holds the pieces after it. */
  lemma RestAfterFirst(t: string, env: Env, segs: seq<Segment>, k: nat, pre: seq<Segment>, tok: Segment, tail: seq<Segment>)
      returns (rest: string, j: nat)
    requires ValidFinder(env)
    requires k < |segs| && segs[k].Token? && k != |pre|
    requires 0 <= env.roomNotifPos(t) && env.roomNotifPos(t) + env.roomNotifLen <= |t|
    requires pre == if env.roomNotifPos(t) > 0 then [Plain(t[..env.roomNotifPos(t)])] else []
    requires tok == Token(t[env.roomNotifPos(t)..env.roomNotifPos(t) + env.roomNotifLen])
    requires tail == if |t| - env.roomNotifPos(t) > env.roomNotifLen
                     then Split(t[env.roomNotifPos(t) + env.roomNotifLen..], env) else []
    requires segs == pre + [tok] + tail
    requires Concat(pre) == t[..env.roomNotifPos(t)]
    ensures tok.Token? && j < |tail| && tail[j].Token? && |rest| < |t|
    ensures |Concat(pre)| + |tok.text| <= |t| && rest == t[|Concat(pre)| + |tok.text|..]
    ensures tail == Split(rest, env)
    ensures k == |pre| + 1 + j
  {
    var p := env.roomNotifPos(t);
    var L := env.roomNotifLen;
    TokenPastFirst(segs, pre, tok, tail, k);
    assert |Concat(pre)| + |tok.text| == p + L;
    assert |t| - p > L;
    rest := t[p + L..];
    assert tail == Split(rest, env);
    j := k - |pre| - 1;
  }

  /**
   * A token piece is either the first token of the split or a token piece of the split of
   * the text after the first token.
   */
  lemma LaterTokenInRest(t: string, env: Env, k: nat)
      returns (first: bool, pre: seq<Segment>, tok: Segment, post: seq<Segment>, rest: string, j: nat)
    requires ValidFinder(env)
    requires k < |Split(t, env)| && Split(t, env)[k].Token?
    ensures first <==> k == (if env.roomNotifPos(t) > 0 then 1 else 0)
    ensures first ==> env.roomNotifPos(t) >= 0
    ensures !first ==>
              && tok.Token? && j < |post| && post[j].Token? && |rest| < |t|
              && |Concat(pre)| + |tok.text| <= |t| && rest == t[|Concat(pre)| + |tok.text|..]
              && post == Split(rest, env)
              && Split(t, env) == pre + [tok] + post
              && k == |pre| + 1 + j
  {
    assert env.roomNotifPos(t) >= 0;
    pre, tok, post := SplitFirstToken(t, env);
    first := k == |pre|;
    if !first {
      rest, j := RestAfterFirst(t, env, Split(t, env), k, pre, tok, post);
    } else {
      rest, j := t, 0;
    }
  }

  /**
   * Each token piece starts at the offset the finder reported for the text being scanned
   * (the text after the previous token), covers exactly roomNotifLen characters of the
   * original text there, and the pieces lie left to right without overlap.
   */
  lemma {:induction false} SplitTokenAt(t: string, env: Env, k: nat)
    requires ValidFinder(env)
    requires k < |Split(t, env)| && Split(t, env)[k].Token?
    ensures TokenPlaced(t, Split(t, env)[k], |Concat(Split(t, env)[..k])|, ScanStart(Split(t, env), k), env)
    decreases |t|
  {
    var first, pre, tok, post, rest, j := LaterTokenInRest(t, env, k);
    if first {
      FirstTokenPlaced(t, env);
    } else {
      SplitTokenAt(rest, env, j);
      PlacedInLaterPiece(t, pre, tok, rest, post, j, Split(t, env), k, env);
    }
  }

  /** Indices of the token pieces, in increasing order. */
  function TokenIndices(segs: seq<Segment>): seq<nat>
    decreases |segs|
  {
    if segs == [] then []
    else
      var last := |segs| - 1;
      TokenIndices(segs[..last]) + (if segs[last].Token? then [last] else [])
  }

  /** The collected indices are exactly the token pieces, each once, in increasing order. */
  lemma {:induction false} TokenIndicesSpec(segs: seq<Segment>)
    ensures forall k :: 0 <= k < |TokenIndices(segs)| ==> TokenIndices(segs)[k] < |segs|
    ensures forall j :: 0 <= j < |segs| ==> (segs[j].Token? <==> j in TokenIndices(segs))
    ensures forall a, b :: 0 <= a < b < |TokenIndices(segs)| ==> TokenIndices(segs)[a] < TokenIndices(segs)[b]
    decreases |segs|
  {
    if segs != [] {
      var last := |segs| - 1;
      var init := segs[..last];
      TokenIndicesSpec(init);
      assert forall j :: 0 <= j < last ==> segs[j] == init[j];
    }
  }

  /** Appending a plain piece collects nothing; appending a token piece collects its index. */
  lemma TokenIndicesSnoc(segs: seq<Segment>, seg: Segment)
    ensures TokenIndices(segs + [seg]) == TokenIndices(segs) + (if seg.Token? then [|segs|] else [])
  {
    assert (segs + [seg])[..|segs|] == segs;
  }

  /** Collecting nothing for a plain piece keeps the collection in step with the pieces. */
  lemma CollectPlain(segs: seq<Segment>, rn: seq<nat>, seg: Segment)
    requires rn == TokenIndices(segs) && seg.Plain?
    ensures rn == TokenIndices(segs + [seg])
  {
    TokenIndicesSnoc(segs, seg);
  }

  /** Collecting the index of a token piece keeps the collection in step with the pieces. */
  lemma CollectToken(segs: seq<Segment>, rn: seq<nat>, seg: Segment)
    requires rn == TokenIndices(segs) && seg.Token?
    ensures rn + [|segs|] == TokenIndices(segs + [seg])
  {
    TokenIndicesSnoc(segs, seg);
  }

  lemma AppendAssoc<T>(a: seq<T>, b: seq<T>, c: seq<T>)
    ensures a + (b + c) == (a + b) + c
  {
  }

  /** The pieces of the text still to be cut, if any. */
  function SplitRest(current: Option<string>, env: Env): seq<Segment>
    requires ValidFinder(env)
  {
    if current.Some? then Split(current.value, env) else []
  }

  /** A reported token lies inside the text. */
  lemma TokenFits(t: string, env: Env)
    requires ValidFinder(env) && env.roomNotifPos(t) >= 0
    ensures env.roomNotifPos(t) + env.roomNotifLen <= |t|
  {
    assert FinderHit(env, t);
  }

  /**
   * One round of the cutting loop on a text node: when the finder reports a token, the text
   * before it (if any) and the token are cut off, and what follows the token (if anything)
   * is the node to cut next; otherwise the whole text is one plain piece.
   */
  function CutOnce(current: string, env: Env): (seq<Segment>, Option<string>)
    requires ValidFinder(env)
  {
    var p := env.roomNotifPos(current);
    var L := env.roomNotifLen;
    if p < 0 then ([Plain(current)], None)
    else
      assert FinderHit(env, current);
      ((if p > 0 then [Plain(current[..p])] else []) + [Token(current[p..p + L])],
       if |current| - p > L then Some(current[p + L..]) else None)
  }

  /**
   * The pieces one round cuts off, followed by the pieces of what it leaves, spell the
   * split of the text; what it leaves is shorter than the text.
   */
  lemma CutOnceSplit(current: string, env: Env)
    requires ValidFinder(env)
    ensures CutOnce(current, env).0 + SplitRest(CutOnce(current, env).1, env) == Split(current, env)
    ensures CutOnce(current, env).1.Some? ==> |CutOnce(current, env).1.value| < |current|
  {
    if env.roomNotifPos(current) >= 0 {
      var pre, tok, post := SplitFirstToken(current, env);
    }
  }

  /**
   * One round of the cutting loop on the current text node, as pillifyLinks does it: split
   * off the text before the token (if any), then the text after it (if any), and collect
   * the token node.
   */
  method CutRound(current: string, env: Env, segs: seq<Segment>, roomNotifTextNodes: seq<nat>)
    returns (segs': seq<Segment>, roomNotifTextNodes': seq<nat>, nextTextNode: Option<string>)
    requires ValidFinder(env)
    requires roomNotifTextNodes == TokenIndices(segs)
    ensures segs' == segs + CutOnce(current, env).0 && nextTextNode == CutOnce(current, env).1
    ensures roomNotifTextNodes' == TokenIndices(segs')
  {
    var L := env.roomNotifLen;
    var roomNotifPos := env.roomNotifPos(current);
    nextTextNode := None;
    segs', roomNotifTextNodes' := segs, roomNotifTextNodes;
    if roomNotifPos > -1 {
      TokenFits(current, env);
      ghost var pre: seq<Segment> := [];
      if roomNotifPos > 0 {
        CollectPlain(segs', roomNotifTextNodes', Plain(current[..roomNotifPos]));
        segs' := segs' + [Plain(current[..roomNotifPos])];
        pre := [Plain(current[..roomNotifPos])];
      }
      // the node left holds current[roomNotifPos..tokenEnd]
      var tokenEnd := |current|;
      if tokenEnd - roomNotifPos > L {
        nextTextNode := Some(current[roomNotifPos + L..]);
        tokenEnd := roomNotifPos + L;
      }
      var roomTextNode := current[roomNotifPos..tokenEnd];
      assert pre + [Token(roomTextNode)] == CutOnce(current, env).0;
      assert nextTextNode == CutOnce(current, env).1;
      CollectToken(segs', roomNotifTextNodes', Token(roomTextNode));
      roomNotifTextNodes' := roomNotifTextNodes' + [|segs'|];
      segs' := segs' + [Token(roomTextNode)];
      AppendAssoc(segs, pre, [Token(roomTextNode)]);
    } else {
      CollectPlain(segs', roomNotifTextNodes', Plain(current));
      segs' := segs' + [Plain(current)];
    }
  }

  /**
   * Cutting one text node, as pillifyLinks' inner loop does: returns the pieces in order
   * and the indices of the token pieces (the nodes collected for replacement).
   */
  method SplitTextNode(text: string, env: Env) returns (segs: seq<Segment>, roomNotifTextNodes: seq<nat>)
    requires ValidFinder(env)
    ensures segs == Split(text, env)
    ensures roomNotifTextNodes == TokenIndices(segs)
  {
    var currentTextNode: Option<string> := Some(text);
    segs := [];
    roomNotifTextNodes := [];
    while currentTextNode.Some?
      invariant segs + SplitRest(currentTextNode, env) == Split(text, env)
      invariant roomNotifTextNodes == TokenIndices(segs)
      decreases if currentTextNode.Some? then |currentTextNode.value| + 1 else 0
    {
      ghost var before := segs;
      var current := currentTextNode.value;
      segs, roomNotifTextNodes, currentTextNode := CutRound(current, env, segs, roomNotifTextNodes);
      CutOnceSplit(current, env);
      AppendAssoc(before, CutOnce(current, env).0, SplitRest(currentTextNode, env));
    }
  }

  // ---- Walking the tree ----

  /** Whether the `.m.rule.roomnotif` rule exists and matches the event. */
  predicate RuleApplies(env: Env)
  {
    RoomNotifRuleId in env.pushRules && env.ruleMatchesEvent(env.pushRules[RoomNotifRuleId])
  }

  /** An anchor with a non-empty href that the pill-URL test accepts. */
  predicate IsPillAnchor(n: Node, env: Env)
  {
    n.Element? && n.tagName == "A" && Truthy(n.href) && env.isMessagePillUrl(n.href.value)
  }

  predicate HasToken(segs: seq<Segment>)
  {
    exists k :: 0 <= k < |segs| && segs[k].Token?
  }

  /** The nodes that take a text node's place: tokens become mention pills when `replace` holds. */
  function AsNodes(segs: seq<Segment>, env: Env, replace: bool): (nodes: seq<Node>)
    ensures |nodes| == |segs|
    decreases |segs|
  {
    if segs == [] then []
    else
      (if replace && segs[0].Token? then [MentionPill(env)] else [Text(segs[0].text)])
      + AsNodes(segs[1..], env, replace)
  }

  /**
   * The walk over a list of siblings whose parent is (or is not) an element with the class
   * mx_AtRoomPill: each node in turn is replaced by what the walk makes of it.
   */
  function Pillify(nodes: seq<Node>, parentIsAtRoomPill: bool, env: Env): seq<Node>
    requires ValidFinder(env)
    decreases nodes
  {
    if nodes == [] then []
    else PillifyNode(nodes[0], parentIsAtRoomPill, env) + Pillify(nodes[1..], parentIsAtRoomPill, env)
  }

  /**
   * What the walk makes of one node: a pill anchor becomes a link pill and is not entered; a
   * scanned text node is split, its tokens becoming mention pills only if the rule applies;
   * every other element, and every pill container already in the tree, has its children walked.
   */
  function PillifyNode(n: Node, parentIsAtRoomPill: bool, env: Env): seq<Node>
    requires ValidFinder(env)
    decreases n
  {
    match n
    case Element(tagName, href, classList, children) =>
      if IsPillAnchor(n, env) then
        [LinkPillFor(href.value, env)]
      else
        [Element(tagName, href, classList, Pillify(children, AtRoomPillClass in classList, env))]
    case Text(t) =>
      if parentIsAtRoomPill then [n]
      else
        var segs := Split(t, env);
        AsNodes(segs, env, HasToken(segs) && RuleApplies(env))
    case PillContainer(pill, children) =>
      // a span without classes: its children are walked as those of any other element
      [PillContainer(pill, Pillify(children, false, env))]
  }

  /** Total length of the text nodes of a sibling list (not of their descendants). */
  function TextLen(nodes: seq<Node>): nat
    decreases |nodes|
  {
    if nodes == [] then 0
    else (if nodes[0].Text? then |nodes[0].content| else 0) + TextLen(nodes[1..])
  }

  lemma {:induction false} TextLenAppend(a: seq<Node>, b: seq<Node>)
    ensures TextLen(a + b) == TextLen(a) + TextLen(b)
    decreases |a|
  {
    if a != [] {
      assert (a + b)[0] == a[0] && (a + b)[1..] == a[1..] + b;
      TextLenAppend(a[1..], b);
    } else {
      assert a + b == b;
    }
  }

  lemma {:induction false} AsNodesTextLen(segs: seq<Segment>, env: Env, replace: bool)
    ensures TextLen(AsNodes(segs, env, replace)) <= |Concat(segs)|
    ensures |AsNodes(segs, env, replace)| == |segs|
    decreases |segs|
  {
    if segs != [] {
      var head: seq<Node> := if replace && segs[0].Token? then [MentionPill(env)]
                             else [Text(segs[0].text)];
      AsNodesTextLen(segs[1..], env, replace);
      TextLenAppend(head, AsNodes(segs[1..], env, replace));
    }
  }

  lemma {:induction false} AsNodesAppend(a: seq<Segment>, b: seq<Segment>, env: Env, replace: bool)
    ensures AsNodes(a + b, env, replace) == AsNodes(a, env, replace) + AsNodes(b, env, replace)
    decreases |a|
  {
    if a != [] {
      assert (a + b)[0] == a[0] && (a + b)[1..] == a[1..] + b;
      AsNodesAppend(a[1..], b, env, replace);
    } else {
      assert a + b == b;
    }
  }

  lemma {:induction false} AsNodesAt(segs: seq<Segment>, env: Env, replace: bool, j: nat)
    requires j < |segs|
    ensures |AsNodes(segs, env, replace)| == |segs|
    ensures AsNodes(segs, env, replace)[j] ==
            if replace && segs[j].Token? then MentionPill(env) else Text(segs[j].text)
    decreases |segs|
  {
    AsNodesTextLen(segs, env, replace);
    if j > 0 {
      AsNodesAt(segs[1..], env, replace, j - 1);
    }
  }

  lemma {:induction false} PillifyAppend(a: seq<Node>, b: seq<Node>, parent: bool, env: Env)
    requires ValidFinder(env)
    ensures Pillify(a + b, parent, env) == Pillify(a, parent, env) + Pillify(b, parent, env)
    decreases |a|
  {
    if a != [] {
      assert (a + b)[1..] == a[1..] + b;
      assert (a + b)[0] == a[0];
      PillifyFirst(a + b, parent, env);
      PillifyFirst(a, parent, env);
      PillifyAppend(a[1..], b, parent, env);
      AppendAssoc(Pillify([a[0]], parent, env), Pillify(a[1..], parent, env), Pillify(b, parent, env));
    } else {
      assert a + b == b;
    }
  }

  /** The walk over a list is the walk over its first node followed by the walk over the rest. */
  lemma PillifyFirst(nodes: seq<Node>, parent: bool, env: Env)
    requires ValidFinder(env) && nodes != []
    ensures Pillify(nodes, parent, env) == Pillify([nodes[0]], parent, env) + Pillify(nodes[1..], parent, env)
  {
    var one := [nodes[0]];
    assert one[0] == nodes[0] && one[1..] == [];
    assert Pillify(one[1..], parent, env) == [];
  }

  /**
   * Rescanning stable pieces changes nothing: plain pieces hold no token, token pieces
   * kept as text are only kept when the rule does not apply, and a mention pill's own DOM
   * is left as it is by a second walk.
   */
  lemma {:induction false} PillifyStablePieces(segs: seq<Segment>, env: Env, replace: bool, parent: bool)
    requires ValidFinder(env)
    requires forall k :: 0 <= k < |segs| ==> Stable(segs[k], env)
    requires forall k :: 0 <= k < |segs| && segs[k].Token? && !replace ==> !RuleApplies(env)
    requires forall k :: 0 <= k < |segs| && segs[k].Token? && replace ==> MentionPillInert(env)
    ensures Pillify(AsNodes(segs, env, replace), parent, env) == AsNodes(segs, env, replace)
    decreases |segs|
  {
    if segs != [] {
      assert segs == [segs[0]] + segs[1..];
      AsNodesAppend([segs[0]], segs[1..], env, replace);
      PillifyStablePiece(segs[0], env, replace, parent);
      PillifyStablePieces(segs[1..], env, replace, parent);
      PillifyAppend(AsNodes([segs[0]], env, replace), AsNodes(segs[1..], env, replace), parent, env);
    }
  }

  /** Rescanning one stable piece changes nothing. */
  lemma PillifyStablePiece(seg: Segment, env: Env, replace: bool, parent: bool)
    requires ValidFinder(env) && Stable(seg, env)
    requires seg.Token? && !replace ==> !RuleApplies(env)
    requires seg.Token? && replace ==> MentionPillInert(env)
    ensures Pillify(AsNodes([seg], env, replace), parent, env) == AsNodes([seg], env, replace)
  {
    var one := AsNodes([seg], env, replace);
    assert [seg][1..] == [];
    assert one[1..] == [];
    if one == [Text(seg.text)] && !parent {
      assert Split(seg.text, env) == [seg];
      assert HasToken([seg]) <==> seg.Token? by {
        if seg.Token? {
          assert [seg][0].Token?;
        }
      }
    }
  }

  lemma AsNodesWithoutTokens(segs: seq<Segment>, env: Env)
    requires !HasToken(segs)
    ensures AsNodes(segs, env, true) == AsNodes(segs, env, false)
  {
    if segs != [] {
      forall k | 0 <= k < |segs| - 1 ensures !segs[1..][k].Token? {
        assert segs[1..][k] == segs[k + 1];
      }
      AsNodesWithoutTokens(segs[1..], env);
    }
  }

  /** Two lists of one length that agree outside positions i..i+n agree on the parts before and after. */
  lemma SameOutside<T>(a: seq<T>, b: seq<T>, i: nat, n: nat)
    requires i + n <= |a| == |b|
    requires forall x :: 0 <= x < |a| && !(i <= x < i + n) ==> a[x] == b[x]
    ensures a[..i] == b[..i] && a[i + n..] == b[i + n..]
  {
    var ta, tb := a[i + n..], b[i + n..];
    forall x | 0 <= x < |ta| ensures ta[x] == tb[x] {
      assert ta[x] == a[i + n + x];
    }
  }

  /** A list is its part before i, its part i..i+n and its part after. */
  lemma Respliced<T>(a: seq<T>, i: nat, n: nat)
    requires i + n <= |a|
    ensures a == a[..i] + a[i..i + n] + a[i + n..]
  {
    assert a[..i + n] == a[..i] + a[i..i + n];
  }

  /**
   * The state of the replacement loop after its first k rounds: the collected positions
   * i + rn[0..k) hold the value v, every other position holds what it held before.
   */
  ghost predicate MarkedUpTo<T>(a: seq<T>, b: seq<T>, i: nat, n: nat, rn: seq<nat>, k: nat, v: T)
    requires k <= |rn|
  {
    && |a| == |b|
    && forall x :: 0 <= x < |b| ==> a[x] == if i <= x < i + n && x - i in rn[..k] then v else b[x]
  }

  /** One more round of the replacement loop marks one more collected position. */
  lemma MarkNext<T>(a: seq<T>, b: seq<T>, i: nat, n: nat, rn: seq<nat>, k: nat, v: T)
    requires k < |rn| && rn[k] < n && i + n <= |b|
    requires MarkedUpTo(a, b, i, n, rn, k, v)
    ensures MarkedUpTo(a[i + rn[k] := v], b, i, n, rn, k + 1, v)
  {
    assert rn[..k + 1] == rn[..k] + [rn[k]];
  }

  /** Positions i..i+n hold the replaced split once every token piece is marked. */
  lemma MiddleReplaced(sibs': seq<Node>, sibs: seq<Node>, i: nat, segs: seq<Segment>, env: Env)
    requires i + |segs| <= |sibs|
    requires sibs[i..i + |segs|] == AsNodes(segs, env, false)
    requires MarkedUpTo(sibs', sibs, i, |segs|, TokenIndices(segs), |TokenIndices(segs)|,
                        MentionPill(env))
    ensures sibs'[i..i + |segs|] == AsNodes(segs, env, true)
  {
    var rn := TokenIndices(segs);
    assert rn[..|rn|] == rn;
    TokenIndicesSpec(segs);
    forall j | 0 <= j < |segs| ensures sibs'[i..i + |segs|][j] == AsNodes(segs, env, true)[j] {
      AsNodesAt(segs, env, true, j);
      AsNodesAt(segs, env, false, j);
      assert sibs'[i..i + |segs|][j] == sibs'[i + j];
      assert sibs[i + j] == sibs[i..i + |segs|][j];
    }
  }

  /** Once every token piece is a mention pill, the pieces read as the replaced split. */
  lemma PiecesReplaced(sibs': seq<Node>, sibs: seq<Node>, i: nat, segs: seq<Segment>, env: Env)
    requires i + |segs| <= |sibs|
    requires sibs[i..i + |segs|] == AsNodes(segs, env, false)
    requires MarkedUpTo(sibs', sibs, i, |segs|, TokenIndices(segs), |TokenIndices(segs)|,
                        MentionPill(env))
    ensures sibs' == sibs[..i] + AsNodes(segs, env, true) + sibs[i + |segs|..]
  {
    SameOutside(sibs', sibs, i, |segs|);
    MiddleReplaced(sibs', sibs, i, segs, env);
    Respliced(sibs', i, |segs|);
  }

  /**
   * pillifyLinks' replacement loop: each collected token node in turn is swapped for a
   * mention pill, and the walk's next node becomes the sibling just after it.
   */
  method ReplaceRoomNotifNodes(sibs: seq<Node>, i: nat, segs: seq<Segment>, roomNotifTextNodes: seq<nat>, env: Env)
    returns (sibs': seq<Node>, next: nat)
    requires i + |segs| <= |sibs|
    requires sibs[i..i + |segs|] == AsNodes(segs, env, false)
    requires roomNotifTextNodes == TokenIndices(segs) && |roomNotifTextNodes| > 0
    ensures sibs' == sibs[..i] + AsNodes(segs, env, true) + sibs[i + |segs|..]
    ensures next == i + roomNotifTextNodes[|roomNotifTextNodes| - 1] + 1
  {
    TokenIndicesSpec(segs);
    var pill := MentionPill(env);
    sibs' := sibs;
    next := i;
    var k := 0;
    while k < |roomNotifTextNodes|
      invariant k <= |roomNotifTextNodes|
      invariant MarkedUpTo(sibs', sibs, i, |segs|, roomNotifTextNodes, k, pill)
      invariant k > 0 ==> next == i + roomNotifTextNodes[k - 1] + 1
    {
      var roomNotifTextNode := i + roomNotifTextNodes[k];
      next := roomNotifTextNode + 1;
      MarkNext(sibs', sibs, i, |segs|, roomNotifTextNodes, k, pill);
      sibs' := sibs'[roomNotifTextNode := pill];
      k := k + 1;
    }
    PiecesReplaced(sibs', sibs, i, segs, env);
  }

  /** The last collected index is a token, and every piece after it is plain text. */
  lemma AfterLastToken(segs: seq<Segment>)
    requires |TokenIndices(segs)| > 0
    ensures var rn := TokenIndices(segs);
            && rn[|rn| - 1] < |segs| && segs[rn[|rn| - 1]].Token?
            && forall j :: rn[|rn| - 1] < j < |segs| ==> segs[j].Plain?
  {
    TokenIndicesSpec(segs);
    var rn := TokenIndices(segs);
    forall a | 0 <= a < |rn| ensures rn[a] <= rn[|rn| - 1] {
      if a < |rn| - 1 {
        assert rn[a] < rn[|rn| - 1];
      }
    }
  }

  /** What a scanned text node turns into when the walk reaches it. */
  lemma PillifyText(t: string, after: seq<Node>, env: Env)
    requires ValidFinder(env)
    ensures Pillify([Text(t)] + after, false, env) ==
            AsNodes(Split(t, env), env, HasToken(Split(t, env)) && RuleApplies(env)) + Pillify(after, false, env)
  {
    assert ([Text(t)] + after)[0] == Text(t) && ([Text(t)] + after)[1..] == after;
  }

  /** Splitting a piece list around piece m. */
  lemma ConcatAround(segs: seq<Segment>, m: nat)
    requires m < |segs|
    ensures |Concat(segs)| == |Concat(segs[..m])| + |segs[m].text| + |Concat(segs[m + 1..])|
  {
    assert segs == segs[..m] + [segs[m]] + segs[m + 1..];
    ConcatAppend(segs[..m] + [segs[m]], segs[m + 1..]);
    ConcatAppend(segs[..m], [segs[m]]);
    assert Concat([segs[m]]) == segs[m].text;
  }

  /**
   * Resuming the walk after the first pieces of a split text node: the pieces still ahead
   * are left as they are, and only text of theirs and of the old siblings is left to walk.
   */
  lemma ResumeAt(before: seq<Node>, head: seq<Segment>, tail: seq<Segment>, after: seq<Node>,
                 replace: bool, env: Env, sibs: seq<Node>, next: nat)
    requires ValidFinder(env)
    requires forall k :: 0 <= k < |tail| ==> Stable(tail[k], env)
    requires forall k :: 0 <= k < |tail| && tail[k].Token? ==> !replace && !RuleApplies(env)
    requires sibs == before + AsNodes(head, env, replace) + AsNodes(tail, env, replace) + after
    requires next == |before| + |head|
    ensures next <= |sibs|
    ensures sibs[..next] + Pillify(sibs[next..], false, env) ==
            before + AsNodes(head, env, replace) + AsNodes(tail, env, replace) + Pillify(after, false, env)
    ensures TextLen(sibs[next..]) <= |Concat(tail)| + TextLen(after)
    ensures forall n :: n in sibs[next..] && !n.Text? ==> n in after
  {
    ResumeCut(before, head, tail, after, replace, env, sibs, next);
    ResumePillify(AsNodes(tail, env, replace), tail, after, replace, env);
    ResumeTextLen(tail, after, replace, env);
    ResumeElements(tail, after, replace, env);
    AppendAssoc(before + AsNodes(head, env, replace), AsNodes(tail, env, replace), Pillify(after, false, env));
  }

  /** The sibling list cut at the resume point. */
  lemma ResumeCut(before: seq<Node>, head: seq<Segment>, tail: seq<Segment>, after: seq<Node>,
                  replace: bool, env: Env, sibs: seq<Node>, next: nat)
    requires sibs == before + AsNodes(head, env, replace) + AsNodes(tail, env, replace) + after
    requires next == |before| + |head|
    ensures next <= |sibs|
    ensures sibs[..next] == before + AsNodes(head, env, replace)
    ensures sibs[next..] == AsNodes(tail, env, replace) + after
  {
    var done := before + AsNodes(head, env, replace);
    AppendAssoc(done, AsNodes(tail, env, replace), after);
  }

  lemma ResumePillify(rest: seq<Node>, tail: seq<Segment>, after: seq<Node>, replace: bool, env: Env)
    requires ValidFinder(env)
    requires forall k :: 0 <= k < |tail| ==> Stable(tail[k], env)
    requires forall k :: 0 <= k < |tail| && tail[k].Token? ==> !replace && !RuleApplies(env)
    requires rest == AsNodes(tail, env, replace)
    ensures Pillify(rest + after, false, env) == rest + Pillify(after, false, env)
  {
    PillifyStablePieces(tail, env, replace, false);
    PillifyAppend(rest, after, false, env);
  }

  lemma ResumeTextLen(tail: seq<Segment>, after: seq<Node>, replace: bool, env: Env)
    ensures TextLen(AsNodes(tail, env, replace) + after) <= |Concat(tail)| + TextLen(after)
  {
    AsNodesTextLen(tail, env, replace);
    TextLenAppend(AsNodes(tail, env, replace), after);
  }

  lemma ResumeElements(tail: seq<Segment>, after: seq<Node>, replace: bool, env: Env)
    requires forall k :: 0 <= k < |tail| && tail[k].Token? ==> !replace
    ensures forall n :: n in AsNodes(tail, env, replace) + after && !n.Text? ==> n in after
  {
    var rest := AsNodes(tail, env, replace);
    forall n | n in rest + after && !n.Text? ensures n in after {
      if n !in after {
        var j :| 0 <= j < |rest| && rest[j] == n;
        AsNodesAt(tail, env, replace, j);
      }
    }
  }

  /** Every piece of a split from piece m on is stable. */
  lemma StableFrom(t: string, env: Env, m: nat)
    requires ValidFinder(env) && m <= |Split(t, env)|
    ensures forall k :: 0 <= k < |Split(t, env)[m..]| ==> Stable(Split(t, env)[m..][k], env)
  {
    SplitStable(t, env);
    var segs := Split(t, env);
    forall k | 0 <= k < |segs[m..]| ensures Stable(segs[m..][k], env) {
      assert segs[m..][k] == segs[m + k];
    }
  }

  /** The parts of a list made of three parts. */
  lemma Spliced<T>(before: seq<T>, mid: seq<T>, after: seq<T>, sibs: seq<T>)
    requires sibs == before + mid + after
    ensures sibs[..|before|] == before
    ensures sibs[|before|..|before| + |mid|] == mid
    ensures sibs[|before| + |mid|..] == after
  {
    AppendAssoc(before, mid, after);
  }

  /** A token piece of a split has the token's length, which is positive. */
  lemma TokenLength(t: string, env: Env, k: nat)
    requires ValidFinder(env) && k < |Split(t, env)| && Split(t, env)[k].Token?
    ensures |Split(t, env)[k].text| == env.roomNotifLen > 0
  {
    SplitStable(t, env);
  }

  /** The text left to walk after resuming past piece m is shorter than the text node and its siblings. */
  lemma ResumeShortens(t: string, after: seq<Node>, env: Env, m: nat)
    requires ValidFinder(env) && m < |Split(t, env)|
    ensures |Concat(Split(t, env)[m + 1..])| + TextLen(after) + |Split(t, env)[m].text| <= TextLen([Text(t)] + after)
  {
    SplitConcat(t, env);
    ConcatAround(Split(t, env), m);
    TextLenAppend([Text(t)], after);
  }

  /** The pieces of a split text node, the first ones and the rest, in the sibling list. */
  lemma PiecesInPlace(before: seq<Node>, head: seq<Segment>, tail: seq<Segment>, after: seq<Node>,
                      replace: bool, env: Env, sibs: seq<Node>)
    requires sibs == before + AsNodes(head + tail, env, replace) + after
    ensures sibs == before + AsNodes(head, env, replace) + AsNodes(tail, env, replace) + after
  {
    AsNodesAppend(head, tail, env, replace);
    AppendAssoc(before, AsNodes(head, env, replace), AsNodes(tail, env, replace));
  }

  /** The walk's result after resuming, against the specification of the whole text node. */
  lemma ResumedResult(t: string, before: seq<Node>, head: seq<Segment>, tail: seq<Segment>, after: seq<Node>,
                      replace: bool, env: Env)
    requires ValidFinder(env)
    requires head + tail == Split(t, env)
    requires replace == (HasToken(Split(t, env)) && RuleApplies(env))
    ensures before + AsNodes(head, env, replace) + AsNodes(tail, env, replace) + Pillify(after, false, env) ==
            before + Pillify([Text(t)] + after, false, env)
  {
    PillifyText(t, after, env);
    AsNodesAppend(head, tail, env, replace);
    AppendAssoc(before, AsNodes(head, env, replace), AsNodes(tail, env, replace));
    AppendAssoc(before, AsNodes(head + tail, env, replace), Pillify(after, false, env));
  }

  /**
   * After the tokens of a text node are replaced, the walk resumes just past the last one:
   * the pieces after it are left as they are, so resuming there gives the same result as
   * the specification, with less text left to walk.
   */
  lemma ReplacedTokens(t: string, before: seq<Node>, after: seq<Node>, sibs: seq<Node>, next: nat, env: Env)
    requires ValidFinder(env) && RuleApplies(env)
    requires |TokenIndices(Split(t, env))| > 0
    requires sibs == before + AsNodes(Split(t, env), env, true) + after
    requires next == |before| + TokenIndices(Split(t, env))[|TokenIndices(Split(t, env))| - 1] + 1
    ensures |before| < next <= |sibs|
    ensures sibs[..next] + Pillify(sibs[next..], false, env) == before + Pillify([Text(t)] + after, false, env)
    ensures TextLen(sibs[next..]) < TextLen([Text(t)] + after)
    ensures forall n :: n in sibs[next..] && !n.Text? ==> n in after
  {
    var segs := Split(t, env);
    var last := TokenIndices(segs)[|TokenIndices(segs)| - 1];
    AfterLastToken(segs);
    PlainSuffix(segs, last + 1);
    PastLastToken(t, before, after, sibs, last, next, env);
    TokenLength(t, env, last);
    ResumeShortens(t, after, env, last);
  }

  /** Resuming just past piece `last`, the last token, of a text node whose tokens were replaced. */
  lemma PastLastToken(t: string, before: seq<Node>, after: seq<Node>, sibs: seq<Node>, last: nat, next: nat, env: Env)
    requires ValidFinder(env) && RuleApplies(env)
    requires last < |Split(t, env)| && Split(t, env)[last].Token?
    requires AllPlain(Split(t, env)[last + 1..])
    requires sibs == before + AsNodes(Split(t, env), env, true) + after
    requires next == |before| + last + 1
    ensures next <= |sibs|
    ensures sibs[..next] + Pillify(sibs[next..], false, env) == before + Pillify([Text(t)] + after, false, env)
    ensures TextLen(sibs[next..]) <= |Concat(Split(t, env)[last + 1..])| + TextLen(after)
    ensures forall n :: n in sibs[next..] && !n.Text? ==> n in after
  {
    var segs := Split(t, env);
    var head, tail := segs[..last + 1], segs[last + 1..];
    assert segs == head + tail;
    assert HasToken(segs) by { assert segs[last].Token?; }
    PiecesInPlace(before, head, tail, after, true, env, sibs);
    StableFrom(t, env, last + 1);
    ResumeAt(before, head, tail, after, true, env, sibs, next);
    ResumedResult(t, before, head, tail, after, true, env);
  }

  /** No piece is a token. */
  predicate AllPlain(segs: seq<Segment>)
  {
    forall k :: 0 <= k < |segs| ==> segs[k].Plain?
  }

  /** The pieces from index m on, as a list of their own, are plain when every piece from m on is. */
  lemma PlainSuffix(segs: seq<Segment>, m: nat)
    requires m <= |segs| && forall j :: m <= j < |segs| ==> segs[j].Plain?
    ensures AllPlain(segs[m..])
  {
    forall k | 0 <= k < |segs[m..]| ensures segs[m..][k].Plain? {
      assert segs[m..][k] == segs[m + k];
    }
  }

  /**
   * When no token is replaced, the pieces stay as text nodes and the walk moves to the
   * second piece; the remaining pieces hold no token the walk would act on.
   */
  lemma KeptPieces(t: string, before: seq<Node>, after: seq<Node>, sibs: seq<Node>, env: Env)
    requires ValidFinder(env)
    requires !(|TokenIndices(Split(t, env))| > 0 && RuleApplies(env))
    requires sibs == before + AsNodes(Split(t, env), env, false) + after
    ensures |before| < |sibs|
    ensures sibs[..|before| + 1] + Pillify(sibs[|before| + 1..], false, env) == before + Pillify([Text(t)] + after, false, env)
    ensures TextLen(sibs[|before| + 1..]) <= TextLen([Text(t)] + after)
    ensures |Split(t, env)| > 1 ==> TextLen(sibs[|before| + 1..]) < TextLen([Text(t)] + after)
    ensures forall n :: n in sibs[|before| + 1..] && !n.Text? ==> n in after
  {
    var segs := Split(t, env);
    SplitHeadNonEmpty(t, env);
    var head, tail := segs[..1], segs[1..];
    assert segs == head + tail;
    PiecesInPlace(before, head, tail, after, false, env, sibs);
    StableFrom(t, env, 1);
    KeptTokensInert(segs, env);
    ResumeAt(before, head, tail, after, false, env, sibs, |before| + 1);
    ResumedResult(t, before, head, tail, after, false, env);
    ResumeShortens(t, after, env, 0);
  }

  /** Without a replacement, either no piece is a token or the rule does not apply. */
  lemma KeptTokensInert(segs: seq<Segment>, env: Env)
    requires !(|TokenIndices(segs)| > 0 && RuleApplies(env))
    requires |segs| >= 1
    ensures forall k :: 0 <= k < |segs[1..]| && segs[1..][k].Token? ==> !RuleApplies(env)
    ensures !(HasToken(segs) && RuleApplies(env))
    ensures AsNodes(segs, env, HasToken(segs) && RuleApplies(env)) == AsNodes(segs, env, false)
  {
    TokenIndicesSpec(segs);
    if HasToken(segs) {
      var k :| 0 <= k < |segs| && segs[k].Token?;
      assert k in TokenIndices(segs);
    }
    forall k | 0 <= k < |segs[1..]| && segs[1..][k].Token? ensures !RuleApplies(env) {
      assert segs[1 + k] == segs[1..][k];
      assert 1 + k in TokenIndices(segs);
    }
  }

  /**
   * The walk may move from `node` index i of `sibs` to index `next` of `sibs'`: what is
   * already walked followed by the walk of the rest is unchanged, the text left to walk
   * shrank (or stayed equal with fewer nodes left), and every element still ahead was
   * already ahead before.
   */
  ghost predicate Resumes(sibs: seq<Node>, i: nat, sibs': seq<Node>, next: nat, parent: bool, env: Env)
    requires ValidFinder(env)
  {
    && i < |sibs| && i < next <= |sibs'|
    && sibs'[..next] + Pillify(sibs'[next..], parent, env) == sibs[..i] + Pillify(sibs[i..], parent, env)
    && (TextLen(sibs'[next..]) < TextLen(sibs[i..])
        || (TextLen(sibs'[next..]) == TextLen(sibs[i..]) && |sibs'| - next < |sibs| - i))
    && forall n :: n in sibs'[next..] && !n.Text? ==> n in sibs[i + 1..]
  }

  /** A step stated in terms of the node and its later siblings is a step of the walk. */
  lemma StepResumes(sibs: seq<Node>, i: nat, sibs': seq<Node>, next: nat, parent: bool, env: Env)
    requires ValidFinder(env)
    requires i < |sibs| && i < next <= |sibs'|
    requires sibs'[..next] + Pillify(sibs'[next..], parent, env) == sibs[..i] + Pillify([sibs[i]] + sibs[i + 1..], parent, env)
    requires TextLen(sibs'[next..]) < TextLen([sibs[i]] + sibs[i + 1..])
             || (TextLen(sibs'[next..]) == TextLen([sibs[i]] + sibs[i + 1..]) && |sibs'| - next < |sibs| - i)
    requires forall n :: n in sibs'[next..] && !n.Text? ==> n in sibs[i + 1..]
    ensures Resumes(sibs, i, sibs', next, parent, env)
  {
    assert sibs[i..] == [sibs[i]] + sibs[i + 1..];
  }

  /**
   * pillifyLinks' handling of a text node outside a rendered "@room" pill: the node is cut
   * into pieces; if it held tokens and the rule applies they are replaced and the walk
   * resumes after the last one, otherwise the walk moves on to the node after the first piece.
   */
  method PillifyTextNode(sibs: seq<Node>, i: nat, env: Env) returns (sibs': seq<Node>, next: nat)
    requires ValidFinder(env)
    requires i < |sibs| && sibs[i].Text?
    ensures Resumes(sibs, i, sibs', next, false, env)
  {
    var t := sibs[i].content;
    var segs, roomNotifTextNodes := SplitTextNode(t, env);
    var before, after := sibs[..i], sibs[i + 1..];
    // the pieces take the text node's place
    sibs' := before + AsNodes(segs, env, false) + after;
    AsNodesTextLen(segs, env, false);
    var atRoomRule := if RoomNotifRuleId in env.pushRules then Some(env.pushRules[RoomNotifRuleId]) else None;
    if |roomNotifTextNodes| > 0 && atRoomRule.Some? && env.ruleMatchesEvent(atRoomRule.value) {
      Spliced(before, AsNodes(segs, env, false), after, sibs');
      sibs', next := ReplaceRoomNotifNodes(sibs', i, segs, roomNotifTextNodes, env);
      ReplacedTokens(t, before, after, sibs', next, env);
    } else {
      next := i + 1;
      KeptPieces(t, before, after, sibs', env);
      SplitHeadNonEmpty(t, env);
    }
    StepResumes(sibs, i, sibs', next, false, env);
  }

  /** Replacing node i by what the walk makes of it, and moving on to the next sibling. */
  lemma ReplaceOne(sibs: seq<Node>, i: nat, m: Node, parent: bool, env: Env)
    requires ValidFinder(env)
    requires i < |sibs| && Pillify([sibs[i]], parent, env) == [m]
    ensures Resumes(sibs, i, sibs[i := m], i + 1, parent, env)
  {
    var sibs' := sibs[i := m];
    assert sibs'[..i + 1] == sibs[..i] + [m];
    assert sibs'[i + 1..] == sibs[i + 1..];
    PillifyAppend([sibs[i]], sibs[i + 1..], parent, env);
    TextLenAppend([sibs[i]], sibs[i + 1..]);
    AppendAssoc(sibs[..i], [m], Pillify(sibs[i + 1..], parent, env));
    StepResumes(sibs, i, sibs', i + 1, parent, env);
  }

  /** The walk's invariant carries over a step. */
  lemma WalkStep(nodes: seq<Node>, sibs: seq<Node>, i: nat, sibs': seq<Node>, next: nat, parent: bool, env: Env)
    requires ValidFinder(env)
    requires i <= |sibs|
    requires sibs[..i] + Pillify(sibs[i..], parent, env) == Pillify(nodes, parent, env)
    requires forall n :: n in sibs[i..] && !n.Text? ==> n in nodes
    requires Resumes(sibs, i, sibs', next, parent, env)
    ensures next <= |sibs'|
    ensures sibs'[..next] + Pillify(sibs'[next..], parent, env) == Pillify(nodes, parent, env)
    ensures forall n :: n in sibs'[next..] && !n.Text? ==> n in nodes
  {
    forall n | n in sibs[i + 1..] ensures n in sibs[i..] {
      var j :| 0 <= j < |sibs[i + 1..]| && sibs[i + 1..][j] == n;
      assert sibs[i..][j + 1] == n;
    }
  }

  /**
   * pillifyLinks' walk over a sibling list: a `node` index moves left to right over a list
   * that the walk rewrites in place; a pill anchor is replaced by a link pill, a text node is
   * handled as above, and any other node with children (an element that was not replaced, or
   * a pill container left by an earlier walk) has its children walked.
   */
  method PillifyLinks(nodes: seq<Node>, parentIsAtRoomPill: bool, env: Env) returns (out: seq<Node>)
    requires ValidFinder(env)
    ensures out == Pillify(nodes, parentIsAtRoomPill, env)
    decreases nodes
  {
    var sibs := nodes;
    var i := 0;
    while i < |sibs|
      invariant i <= |sibs|
      invariant sibs[..i] + Pillify(sibs[i..], parentIsAtRoomPill, env) == Pillify(nodes, parentIsAtRoomPill, env)
      invariant forall n :: n in sibs[i..] && !n.Text? ==> n in nodes
      decreases TextLen(sibs[i..]), |sibs| - i
    {
      var node := sibs[i];
      var pillified := false;
      var sibs', next := sibs, i + 1;
      if node.Element? && node.tagName == "A" && Truthy(node.href) {
        var href := node.href.value;
        if env.isMessagePillUrl(href) {
          var pill := LinkPill(href, env.room, env.shouldShowPillAvatar);
          var pillContainer := PillContainer(pill, env.renderPill(pill));
          sibs' := sibs[i := pillContainer];
          pillified := true;
          ReplaceOne(sibs, i, pillContainer, parentIsAtRoomPill, env);
        }
      } else if node.Text? && !parentIsAtRoomPill {
        sibs', next := PillifyTextNode(sibs, i, env);
      }
      if !node.Text? && !pillified {
        assert node in sibs[i..];
        var children := node.children;
        if |children| > 0 {
          // the children's parent element is this node: a container span has no classes
          var childrenInAtRoomPill := node.Element? && AtRoomPillClass in node.classList;
          children := PillifyLinks(node.children, childrenInAtRoomPill, env);
        }
        var walked := node.(children := children);
        sibs' := sibs[i := walked];
        assert PillifyNode(node, parentIsAtRoomPill, env) == [walked];
        assert Pillify([node], parentIsAtRoomPill, env) == [walked];
        ReplaceOne(sibs, i, walked, parentIsAtRoomPill, env);
      } else if node.Text? && parentIsAtRoomPill {
        assert sibs == sibs[i := node];
        ReplaceOne(sibs, i, node, parentIsAtRoomPill, env);
      }
      WalkStep(nodes, sibs, i, sibs', next, parentIsAtRoomPill, env);
      sibs, i := sibs', next;
    }
    assert sibs[i..] == [];
    out := sibs;
  }

  // ---- Properties of the walk ----

  /** The text of a tree, in document order, as the DOM gives it (a pill's rendering included). */
  function TextContent(nodes: seq<Node>): string
    decreases nodes
  {
    if nodes == [] then ""
    else
      (match nodes[0]
       case Text(t) => t
       case Element(_, _, _, children) => TextContent(children)
       case PillContainer(_, children) => TextContent(children))
      + TextContent(nodes[1..])
  }

  /** The number of "@room" mention pills in a tree. */
  function Mentions(nodes: seq<Node>): nat
    decreases nodes
  {
    if nodes == [] then 0
    else
      (match nodes[0]
       case Text(_) => 0
       case Element(_, _, _, children) => Mentions(children)
       case PillContainer(pill, children) => (if pill.AtRoomMention? then 1 else 0) + Mentions(children))
      + Mentions(nodes[1..])
  }

  /** No anchor anywhere in the tree, inside rendered pills included, passes the pill-URL test. */
  predicate NoPillAnchors(nodes: seq<Node>, env: Env)
    decreases nodes
  {
    if nodes == [] then true
    else
      (match nodes[0]
       case Element(_, _, _, children) => !IsPillAnchor(nodes[0], env) && NoPillAnchors(children, env)
       case PillContainer(_, children) => NoPillAnchors(children, env)
       case Text(_) => true)
      && NoPillAnchors(nodes[1..], env)
  }

  /** No anchor outside the rendered pills passes the pill-URL test. */
  predicate NoPillAnchorsOutsidePills(nodes: seq<Node>, env: Env)
    decreases nodes
  {
    if nodes == [] then true
    else
      (match nodes[0]
       case Element(_, _, _, children) => !IsPillAnchor(nodes[0], env) && NoPillAnchorsOutsidePills(children, env)
       case _ => true)
      && NoPillAnchorsOutsidePills(nodes[1..], env)
  }

  lemma {:induction false} TreeMeasuresAppend(a: seq<Node>, b: seq<Node>, env: Env)
    ensures TextContent(a + b) == TextContent(a) + TextContent(b)
    ensures Mentions(a + b) == Mentions(a) + Mentions(b)
    ensures NoPillAnchors(a + b, env) == (NoPillAnchors(a, env) && NoPillAnchors(b, env))
    ensures NoPillAnchorsOutsidePills(a + b, env) ==
            (NoPillAnchorsOutsidePills(a, env) && NoPillAnchorsOutsidePills(b, env))
    decreases |a|
  {
    if a != [] {
      assert (a + b)[0] == a[0] && (a + b)[1..] == a[1..] + b;
      TreeMeasuresAppend(a[1..], b, env);
    } else {
      assert a + b == b;
    }
  }

  /** The nodes that take a text node's place: their text, their mentions, no anchors outside pills. */
  lemma {:induction false} AsNodesMeasures(segs: seq<Segment>, env: Env, replace: bool)
    ensures !replace ==> TextContent(AsNodes(segs, env, replace)) == Concat(segs)
    ensures !replace ==> Mentions(AsNodes(segs, env, replace)) == 0
    ensures NoPillAnchorsOutsidePills(AsNodes(segs, env, replace), env)
    decreases |segs|
  {
    if segs != [] {
      var head: seq<Node> := if replace && segs[0].Token? then [MentionPill(env)]
                             else [Text(segs[0].text)];
      AsNodesMeasures(segs[1..], env, replace);
      TreeMeasuresAppend(head, AsNodes(segs[1..], env, replace), env);
    }
  }

  /**
   * With the rule applying, the pieces hold one mention pill per collected token, as long
   * as the rendering of a mention pill holds no mention pill of its own.
   */
  lemma {:induction false} MentionsPerToken(segs: seq<Segment>, env: Env)
    requires Mentions(env.renderPill(AtRoomMention(env.room))) == 0
    ensures Mentions(AsNodes(segs, env, true)) == |TokenIndices(segs)|
    decreases |segs|
  {
    if segs != [] {
      var last := |segs| - 1;
      var init := segs[..last];
      assert segs == init + [segs[last]];
      AsNodesAppend(init, [segs[last]], env, true);
      TreeMeasuresAppend(AsNodes(init, env, true), AsNodes([segs[last]], env, true), env);
      MentionsPerToken(init, env);
      assert [MentionPill(env)][1..] == [];
    }
  }

  /** What the walk makes of one node followed by its siblings. */
  lemma PillifyCons(n: Node, rest: seq<Node>, parent: bool, env: Env)
    requires ValidFinder(env)
    ensures Pillify([n] + rest, parent, env) == Pillify([n], parent, env) + Pillify(rest, parent, env)
  {
    PillifyAppend([n], rest, parent, env);
  }

  // ---- What a second walk finds inside the pills ----

  /**
   * An element the "@room" pill renders, as far as the walk is concerned: it carries the
   * class mx_AtRoomPill, is not a pill anchor, and holds only text.
   */
  predicate AtRoomPillElement(n: Node, env: Env)
  {
    && n.Element? && AtRoomPillClass in n.classList && !IsPillAnchor(n, env)
    && forall j :: 0 <= j < |n.children| ==> n.children[j].Text?
  }

  /** The DOM rendered for the "@room" pill is made of such elements. */
  predicate AtRoomPillDom(env: Env)
  {
    var dom := env.renderPill(AtRoomMention(env.room));
    forall k :: 0 <= k < |dom| ==> AtRoomPillElement(dom[k], env)
  }

  /** A second walk leaves the DOM of a rendered "@room" pill as it is. */
  predicate MentionPillInert(env: Env)
    requires ValidFinder(env)
  {
    Pillify(env.renderPill(AtRoomMention(env.room)), false, env) == env.renderPill(AtRoomMention(env.room))
  }

  /**
   * A tree that holds nothing for the walk to act on: no pill anchor anywhere, and no token
   * in any text node the walk would scan (one whose parent lacks the class mx_AtRoomPill).
   */
  predicate InertTree(nodes: seq<Node>, parentIsAtRoomPill: bool, env: Env)
    decreases nodes
  {
    if nodes == [] then true
    else
      (match nodes[0]
       case Element(_, _, classList, children) =>
         !IsPillAnchor(nodes[0], env) && InertTree(children, AtRoomPillClass in classList, env)
       case Text(t) => parentIsAtRoomPill || env.roomNotifPos(t) < 0
       case PillContainer(_, children) => InertTree(children, false, env))
      && InertTree(nodes[1..], parentIsAtRoomPill, env)
  }

  /** The walk leaves a tree with nothing to act on exactly as it is. */
  lemma {:induction false} InertTreeKept(nodes: seq<Node>, parent: bool, env: Env)
    requires ValidFinder(env) && InertTree(nodes, parent, env)
    ensures Pillify(nodes, parent, env) == nodes
    decreases nodes
  {
    if nodes != [] {
      var n := nodes[0];
      InertTreeKept(nodes[1..], parent, env);
      assert nodes == [n] + nodes[1..];
      match n
      case Element(_, _, classList, children) =>
        InertTreeKept(children, AtRoomPillClass in classList, env);
      case Text(t) =>
        if !parent {
          assert Split(t, env) == [Plain(t)];
          assert [Plain(t)][1..] == [];
        }
      case PillContainer(_, children) =>
        InertTreeKept(children, false, env);
    }
  }

  /**
   * What is assumed of a rendered link pill: its DOM holds no pill anchor, and no text that a
   * walk would scan holds a token.
   */
  ghost predicate LinkPillsInert(env: Env)
  {
    forall href: string :: InertTree(env.renderPill(LinkPill(href, env.room, env.shouldShowPillAvatar)), false, env)
  }

  /** Text under an element with the class mx_AtRoomPill is left as it is, and holds no mention. */
  lemma {:induction false} TextChildrenKept(children: seq<Node>, env: Env)
    requires ValidFinder(env)
    requires forall j :: 0 <= j < |children| ==> children[j].Text?
    ensures Pillify(children, true, env) == children
    ensures Mentions(children) == 0
    decreases |children|
  {
    AtRoomPillTextKept(children, env);
    if children != [] {
      TextChildrenKept(children[1..], env);
    }
  }

  /**
   * The class check at work: walking a rendered "@room" pill changes nothing, because each
   * of its elements carries the class mx_AtRoomPill and the text inside is not scanned.
   */
  lemma {:induction false} AtRoomElementsKept(dom: seq<Node>, env: Env)
    requires ValidFinder(env)
    requires forall k :: 0 <= k < |dom| ==> AtRoomPillElement(dom[k], env)
    ensures Pillify(dom, false, env) == dom
    ensures Mentions(dom) == 0
    decreases |dom|
  {
    if dom != [] {
      TextChildrenKept(dom[0].children, env);
      AtRoomElementsKept(dom[1..], env);
      assert dom == [dom[0]] + dom[1..];
    }
  }

  /**
   * A mention pill left by an earlier walk survives a second one unchanged: the walk enters
   * its container and stops at the class mx_AtRoomPill.
   */
  lemma MentionPillKept(parent: bool, env: Env)
    requires ValidFinder(env) && AtRoomPillDom(env)
    ensures MentionPillInert(env)
    ensures Pillify([MentionPill(env)], parent, env) == [MentionPill(env)]
    ensures Mentions([MentionPill(env)]) == 1
  {
    AtRoomElementsKept(env.renderPill(AtRoomMention(env.room)), env);
    assert [MentionPill(env)][1..] == [];
  }

  /**
   * Walking twice gives what walking once gives: a second walk enters the pill containers,
   * leaves a mention pill's DOM alone through the mx_AtRoomPill check and a link pill's DOM
   * by its rendering; the pieces of a split text node are already cut, and children are
   * walked with the same parent class.
   */
  lemma {:induction false} PillifyIdempotent(nodes: seq<Node>, parent: bool, env: Env)
    requires ValidFinder(env) && AtRoomPillDom(env) && LinkPillsInert(env)
    ensures Pillify(Pillify(nodes, parent, env), parent, env) == Pillify(nodes, parent, env)
    decreases nodes
  {
    if nodes != [] {
      PillifyAppend(PillifyNode(nodes[0], parent, env), Pillify(nodes[1..], parent, env), parent, env);
      NodeIdempotent(nodes[0], parent, env);
      PillifyIdempotent(nodes[1..], parent, env);
    }
  }

  /** A single node is replaced by what the walk makes of it. */
  lemma PillifyOne(n: Node, parent: bool, env: Env)
    requires ValidFinder(env)
    ensures Pillify([n], parent, env) == PillifyNode(n, parent, env)
  {
    assert [n][1..] == [];
  }

  /** Walking again what the walk made of one node changes nothing. */
  lemma {:induction false} NodeIdempotent(n: Node, parent: bool, env: Env)
    requires ValidFinder(env) && AtRoomPillDom(env) && LinkPillsInert(env)
    ensures Pillify(PillifyNode(n, parent, env), parent, env) == PillifyNode(n, parent, env)
    decreases n
  {
    match n
    case Element(tagName, href, classList, children) =>
      if !IsPillAnchor(n, env) {
        var c := AtRoomPillClass in classList;
        PillifyIdempotent(children, c, env);
        PillifyOne(Element(tagName, href, classList, Pillify(children, c, env)), parent, env);
      } else {
        InertTreeKept(env.renderPill(LinkPill(href.value, env.room, env.shouldShowPillAvatar)), false, env);
        PillifyOne(LinkPillFor(href.value, env), parent, env);
      }
    case Text(t) =>
      if !parent {
        var segs := Split(t, env);
        var replace := HasToken(segs) && RuleApplies(env);
        SplitStable(t, env);
        MentionPillKept(parent, env);
        PillifyStablePieces(segs, env, replace, parent);
      } else {
        PillifyOne(n, parent, env);
      }
    case PillContainer(pill, children) =>
      PillifyIdempotent(children, false, env);
      PillifyOne(PillContainer(pill, Pillify(children, false, env)), parent, env);
  }

  /** After the walk no anchor outside the pills passes the pill-URL test. */
  lemma {:induction false} NoPillAnchorsAfter(nodes: seq<Node>, parent: bool, env: Env)
    requires ValidFinder(env)
    ensures NoPillAnchorsOutsidePills(Pillify(nodes, parent, env), env)
    decreases nodes
  {
    if nodes != [] {
      var n := nodes[0];
      assert nodes == [n] + nodes[1..];
      assert [n][1..] == [];
      PillifyCons(n, nodes[1..], parent, env);
      NoPillAnchorsAfter(nodes[1..], parent, env);
      TreeMeasuresAppend(Pillify([n], parent, env), Pillify(nodes[1..], parent, env), env);
      match n
      case Element(tagName, href, classList, children) =>
        if !IsPillAnchor(n, env) {
          NoPillAnchorsAfter(children, AtRoomPillClass in classList, env);
        }
      case Text(t) =>
        if !parent {
          var segs := Split(t, env);
          var replace := HasToken(segs) && RuleApplies(env);
          assert Pillify([n], parent, env) == AsNodes(segs, env, replace);
          AsNodesMeasures(segs, env, replace);
        }
      case PillContainer(_, _) =>
    }
  }

  /**
   * When the room-notification rule does not apply, and no anchor is turned into a link
   * pill, the walk changes neither the text of the tree nor its number of mention pills.
   */
  lemma {:induction false} NoRuleKeepsText(nodes: seq<Node>, parent: bool, env: Env)
    requires ValidFinder(env)
    requires !RuleApplies(env) && NoPillAnchors(nodes, env)
    ensures TextContent(Pillify(nodes, parent, env)) == TextContent(nodes)
    ensures Mentions(Pillify(nodes, parent, env)) == Mentions(nodes)
    decreases nodes
  {
    if nodes != [] {
      var n := nodes[0];
      assert nodes == [n] + nodes[1..];
      TreeMeasuresAppend([n], nodes[1..], env);
      TreeMeasuresAppend(PillifyNode(n, parent, env), Pillify(nodes[1..], parent, env), env);
      NodeKeepsText(n, parent, env);
      NoRuleKeepsText(nodes[1..], parent, env);
    }
  }

  /** The same for what the walk makes of one node. */
  lemma {:induction false} NodeKeepsText(n: Node, parent: bool, env: Env)
    requires ValidFinder(env)
    requires !RuleApplies(env) && NoPillAnchors([n], env)
    ensures TextContent(PillifyNode(n, parent, env)) == TextContent([n])
    ensures Mentions(PillifyNode(n, parent, env)) == Mentions([n])
    decreases n
  {
    assert [n][1..] == [];
    match n
    case Element(tagName, href, classList, children) =>
      var c := AtRoomPillClass in classList;
      NoRuleKeepsText(children, c, env);
      assert [Element(tagName, href, classList, Pillify(children, c, env))][1..] == [];
    case Text(t) =>
      if !parent {
        var segs := Split(t, env);
        AsNodesMeasures(segs, env, false);
        SplitConcat(t, env);
      }
    case PillContainer(pill, children) =>
      NoRuleKeepsText(children, false, env);
      assert [PillContainer(pill, Pillify(children, false, env))][1..] == [];
  }

  /** Under a rendered "@room" pill the text nodes are not scanned: each stays where it is. */
  lemma {:induction false} AtRoomPillTextKept(nodes: seq<Node>, env: Env)
    requires ValidFinder(env)
    ensures |Pillify(nodes, true, env)| == |nodes|
    ensures forall k :: 0 <= k < |nodes| && nodes[k].Text? ==> Pillify(nodes, true, env)[k] == nodes[k]
    decreases nodes
  {
    if nodes != [] {
      AtRoomPillTextKept(nodes[1..], env);
      var out := Pillify(nodes, true, env);
      assert |PillifyNode(nodes[0], true, env)| == 1;
      forall k | 0 < k < |nodes|
        ensures out[k] == Pillify(nodes[1..], true, env)[k - 1]
      {
      }
    }
  }

  /**
   * When the rule applies, a scanned text node yields exactly one mention pill per token
   * the cutting loop collected, and none when it collected nothing.
   */
  lemma TextNodeMentions(t: string, env: Env)
    requires ValidFinder(env) && RuleApplies(env) && AtRoomPillDom(env)
    ensures Mentions(Pillify([Text(t)], false, env)) == |TokenIndices(Split(t, env))|
  {
    var segs := Split(t, env);
    var replace := HasToken(segs);
    assert [Text(t)][1..] == [];
    assert Pillify([Text(t)], false, env) == AsNodes(segs, env, replace);
    if replace {
      AtRoomElementsKept(env.renderPill(AtRoomMention(env.room)), env);
      MentionsPerToken(segs, env);
    } else {
      AsNodesMeasures(segs, env, false);
      TokensCollected(segs);
    }
  }

  /**
   * The pieces of a split lie in the text left to right without overlapping: piece `a`
   * ends no later than any later piece `b` begins.
   */
  lemma PiecesInOrder(t: string, env: Env, a: nat, b: nat)
    requires ValidFinder(env) && a < b <= |Split(t, env)|
    ensures |Concat(Split(t, env)[..a])| + |Split(t, env)[a].text| <= |Concat(Split(t, env)[..b])|
  {
    var segs := Split(t, env);
    assert segs[..b] == segs[..a] + ([segs[a]] + segs[a + 1..b]);
    ConcatAppend(segs[..a], [segs[a]] + segs[a + 1..b]);
    ConcatAppend([segs[a]], segs[a + 1..b]);
    assert [segs[a]][1..] == [];
  }

  /** A list of pieces has a token piece exactly when its collected indices are not empty. */
  lemma {:induction false} TokensCollected(segs: seq<Segment>)
    ensures HasToken(segs) <==> TokenIndices(segs) != []
    decreases |segs|
  {
    if segs != [] {
      var last := |segs| - 1;
      var init := segs[..last];
      TokensCollected(init);
      assert forall j :: 0 <= j < last ==> segs[j] == init[j];
      if segs[last].Token? {
        assert HasToken(segs);
      }
    }
  }

  /**
   * A pill anchor becomes exactly one link pill carrying its href, whatever its children:
   * its subtree is not walked.
   */
  lemma PillAnchorNotEntered(n: Node, parent: bool, env: Env)
    requires ValidFinder(env) && IsPillAnchor(n, env)
    ensures Pillify([n], parent, env) == [LinkPillFor(n.href.value, env)]
    ensures forall c: seq<Node> :: Pillify([Element(n.tagName, n.href, n.classList, c)], parent, env) == Pillify([n], parent, env)
  {
    assert [n][1..] == [];
    forall c: seq<Node>
      ensures Pillify([Element(n.tagName, n.href, n.classList, c)], parent, env) == Pillify([n], parent, env)
    {
      assert [Element(n.tagName, n.href, n.classList, c)][1..] == [];
    }
  }

  /** An element that is not a pill anchor stays in place with its children walked. */
  lemma ElementWalked(n: Node, parent: bool, env: Env)
    requires ValidFinder(env) && n.Element? && !IsPillAnchor(n, env)
    ensures Pillify([n], parent, env) ==
            [Element(n.tagName, n.href, n.classList, Pillify(n.children, AtRoomPillClass in n.classList, env))]
  {
    assert [n][1..] == [];
  }

  /**
   * A pill container already in the tree is entered like any element: its children are
   * walked under a parent without the class mx_AtRoomPill, and the pill itself is kept.
   */
  lemma ContainerWalked(n: Node, parent: bool, env: Env)
    requires ValidFinder(env) && n.PillContainer?
    ensures Pillify([n], parent, env) == [PillContainer(n.pill, Pillify(n.children, false, env))]
  {
    assert [n][1..] == [];
  }
}
