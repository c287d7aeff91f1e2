/**
  The message composer of src/components/chat/MessageInput.tsx: what the
  send button, the secret-send button and the emoji picker do to the draft,
  and the saved-reply category chips with their filter. The saved-reply
  list is a parameter, since the module it is imported from does not define it.
 */
module MessageInput {

  import opened Basics
  import opened Text
  import opened Messages

  /** What the composer hands to `onSendMessage`, if anything, and the draft left behind. */
  datatype Submitted = Submitted(sent: Option<(string, MessageType)>, draft: string)

  /** `handleSubmit`: send the trimmed draft, unless it is blank or the input is disabled. */
  function HandleSubmit(draft: string, disabled: bool, isSecret: bool): (r: Submitted)
    ensures r.sent.Some? <==> !AllWhitespace(draft) && !disabled
    ensures r.sent.Some? ==> r.sent.value == (Trim(draft), if isSecret then Secret else Text)
                             && r.draft == ""
    ensures r.sent.None? ==> r.draft == draft
  {
    TrimEmptyIff(draft);
    if Trim(draft) != "" && !disabled then
      Submitted(Some((Trim(draft), if isSecret then Secret else Text)), "")
    else Submitted(None, draft)
  }

  /** `sendSecretMessage`: like a secret submit, but it does not look at `disabled`. */
  function SendSecretMessage(draft: string): (r: Submitted)
    ensures r.sent.Some? <==> !AllWhitespace(draft)
    ensures r.sent.Some? ==> r.sent.value == (Trim(draft), Secret) && r.draft == ""
    ensures r.sent.None? ==> r.draft == draft
  {
    TrimEmptyIff(draft);
    if Trim(draft) != "" then Submitted(Some((Trim(draft), Secret)), "")
    else Submitted(None, draft)
  }

  /**
    What is sent is never blank and never starts or ends with whitespace,
    and sending it again from a fresh draft sends the same text.
   */
  lemma SentTextIsTrimmed(draft: string, disabled: bool, isSecret: bool)
    requires HandleSubmit(draft, disabled, isSecret).sent.Some?
    ensures var text := HandleSubmit(draft, disabled, isSecret).sent.value.0;
      && text != []
      && !IsWhitespace(text[0]) && !IsWhitespace(text[|text| - 1])
      && HandleSubmit(text, disabled, isSecret) == HandleSubmit(draft, disabled, isSecret)
  {
    var text := Trim(draft);
    TrimEmptyIff(draft);
    TrimIdempotent(draft);
    TrimEmptyIff(text);
  }

  /** The secret button still sends while the input is disabled, where the form does not. */
  lemma SecretButtonIgnoresDisabled(draft: string)
    requires !AllWhitespace(draft)
    ensures HandleSubmit(draft, true, true).sent.None?
    ensures SendSecretMessage(draft) == HandleSubmit(draft, false, true)
    ensures SendSecretMessage(draft).sent.Some?
  {
  }

  /** `addEmoji`: the emoji goes at the end of the draft. */
  function AddEmoji(draft: string, emoji: string): (r: string)
    ensures |r| == |draft| + |emoji| && r[..|draft|] == draft && r[|draft|..] == emoji
  {
    draft + emoji
  }

  /** Any emoji of the picker makes even a blank draft sendable. */
  lemma EmojiMakesDraftSendable(draft: string, emoji: string, i: nat)
    requires i < |emoji| && !IsWhitespace(emoji[i])
    ensures HandleSubmit(AddEmoji(draft, emoji), false, false).sent.Some?
  {
    var r := AddEmoji(draft, emoji);
    assert r[|draft| + i] == emoji[i];
  }

  // ---------------------------------------------------------------------
  // Saved replies
  // ---------------------------------------------------------------------

  datatype SavedReply = SavedReply(id: string, text: string, category: string)

  /** Index of the first occurrence of `x` in `s`, or `|s|`. */
  function IndexOf(s: seq<string>, x: string): (k: nat)
    ensures k <= |s|
    ensures k < |s| <==> x in s
    ensures k < |s| ==> s[k] == x && x !in s[..k]
  {
    if s == [] then 0
    else if s[0] == x then 0
    else
      var k := IndexOf(s[1..], x);
      assert s[1..][..k] == s[1..k + 1];
      1 + k
  }

  /** An occurrence with no earlier one is the first occurrence. */
  lemma {:induction false} IndexOfUnique(s: seq<string>, x: string, k: nat)
    requires k < |s| && s[k] == x && x !in s[..k]
    ensures IndexOf(s, x) == k
  {
    if k > 0 {
      assert s[..k] == [s[0]] + s[1..][..k - 1];
      IndexOfUnique(s[1..], x, k - 1);
    }
  }

  lemma IndexOfPrefix(s: seq<string>, n: nat, x: string)
    requires n <= |s| && x in s[..n]
    ensures IndexOf(s, x) == IndexOf(s[..n], x)
  {
    var k := IndexOf(s[..n], x);
    assert s[..n][..k] == s[..k];
    IndexOfUnique(s, x, k);
  }

  /**
    `Array.from(new Set(xs))`: each value once, in the order of its first
    occurrence.
   */
  function Distinct(s: seq<string>): (r: seq<string>)
    ensures forall x :: x in r <==> x in s
    ensures forall i, j :: 0 <= i < j < |r| ==> r[i] != r[j]
    ensures forall i, j :: 0 <= i < j < |r| ==> IndexOf(s, r[i]) < IndexOf(s, r[j])
  {
    if s == [] then []
    else
      var init := s[..|s| - 1];
      var last := s[|s| - 1];
      var d := Distinct(init);
      assert s == init + [last];
      forall x | x in d
        ensures IndexOf(s, x) == IndexOf(init, x)
      {
        IndexOfPrefix(s, |s| - 1, x);
      }
      if last in d then d
      else
        assert IndexOf(s, last) == |s| - 1 by {
          assert s[..|s| - 1] == init;
        }
        d + [last]
  }

  function CategoriesOf(replies: seq<SavedReply>): (r: seq<string>)
    ensures |r| == |replies| && forall i :: 0 <= i < |replies| ==> r[i] == replies[i].category
  {
    seq(|replies|, i requires 0 <= i < |replies| => replies[i].category)
  }

  /** The category chips: "all", then each reply category once, in first-seen order. */
  function Categories(replies: seq<SavedReply>): (r: seq<string>)
    ensures |r| >= 1 && r[0] == "all"
    ensures forall c :: c in r[1..] <==> exists i :: 0 <= i < |replies| && replies[i].category == c
    ensures forall i, j :: 1 <= i < j < |r| ==> r[i] != r[j]
    ensures forall i, j :: 1 <= i < j < |r| ==>
              IndexOf(CategoriesOf(replies), r[i]) < IndexOf(CategoriesOf(replies), r[j])
  {
    var cs := CategoriesOf(replies);
    var d := Distinct(cs);
    assert (["all"] + d)[1..] == d;
    assert forall i :: 1 <= i < |d| + 1 ==> (["all"] + d)[i] == d[i - 1];
    forall c | c in d
      ensures exists i :: 0 <= i < |replies| && replies[i].category == c
    {
      var i := IndexOf(cs, c);
    }
    forall c, i | 0 <= i < |replies| && replies[i].category == c
      ensures c in d
    {
      assert cs[i] == c;
    }
    ["all"] + d
  }

  /** A reply filed under the category "all" gets a second "all" chip. */
  lemma AllChipRepeated(replies: seq<SavedReply>, i: nat)
    requires i < |replies| && replies[i].category == "all"
    ensures var r := Categories(replies); exists k :: 1 <= k < |r| && r[k] == r[0]
  {
    var r := Categories(replies);
    assert "all" in r[1..];
    var k' :| 0 <= k' < |r[1..]| && r[1..][k'] == "all";
    assert r[k' + 1] == "all";
  }

  /** `savedReplies.filter(reply => reply.category === c)`. */
  function FilterCategory(replies: seq<SavedReply>, c: string): (r: seq<SavedReply>)
    ensures forall x :: x in r <==> x in replies && x.category == c
    ensures |r| <= |replies|
  {
    if replies == [] then []
    else if replies[0].category == c then [replies[0]] + FilterCategory(replies[1..], c)
    else FilterCategory(replies[1..], c)
  }

  lemma {:induction false} FilterCategoryAppend(a: seq<SavedReply>, b: seq<SavedReply>, c: string)
    ensures FilterCategory(a + b, c) == FilterCategory(a, c) + FilterCategory(b, c)
  {
    if a != [] {
      assert (a + b)[1..] == a[1..] + b;
      FilterCategoryAppend(a[1..], b, c);
    } else {
      assert a + b == b;
    }
  }

  /** The replies the selected chip shows: everything for "all", else one category. */
  function FilteredReplies(replies: seq<SavedReply>, selected: string): (r: seq<SavedReply>)
    ensures selected == "all" ==> r == replies
    ensures selected != "all" ==> forall x :: x in r <==> x in replies && x.category == selected
    ensures selected != "all" ==> r == FilterCategory(replies, selected)
  {
    if selected == "all" then replies else FilterCategory(replies, selected)
  }

  /** Every chip shows at least one reply. */
  lemma EveryChipShowsSomething(replies: seq<SavedReply>, k: nat)
    requires 1 <= k < |Categories(replies)| || (k == 0 && replies != [])
    ensures FilteredReplies(replies, Categories(replies)[k]) != []
  {
    var c := Categories(replies)[k];
    if c != "all" {
      assert c in Categories(replies)[1..] by {
        assert Categories(replies)[1..][k - 1] == c;
      }
      var i :| 0 <= i < |replies| && replies[i].category == c;
      assert replies[i] in FilteredReplies(replies, c);
    }
  }
}
