/** A real overlay slot whose long-horizon score leaves [-1, 1]. */
module OptionSlot {
  import opened Basics
  import opened AggregatorNode
  import opened AggregatorLaws

  function FreshOption(id: string, parent: string): RawNode {
    RawNode(id, SLOT, SLOT_NAME, parent, "Optionality", "Optionality", "positive",
            VDict(map["score" := CNum(1.0), "future_option_value" := CNum(1.0)], 0.0), Some(1.0), true, 1.0, true,
            Some(true), None, None, None, None, None, None, QNum(1.0), Some(1.0), Some(1.0), Some(0.65))
  }

  const SLOT := "L2.newbiz.tam"
  const SLOT_NAME := "新业务潜在空间"

  lemma SlotTexts(raw: RawNode)
    requires raw.dataStatus == "Optionality" && raw.direction == "positive" && raw.participates == Some(true)
    ensures NodeStatus(raw) == Optionality && DirectionSign(raw.direction) == 1.0 && ScoreEnabled(raw)
  {
    assert Strip("Optionality") == "Optionality";
    assert Lower("Optionality") == "optionality" && Lower("positive") == "positive";
  }

  /** A text that occurs brings all its characters along. */
  lemma ContainsChars(haystack: string, p: string, k: nat)
    requires k < |p| && Contains(haystack, p)
    ensures p[k] in haystack
  {
    var i :| 0 <= i <= |haystack| && StartsWith(haystack[i..], p);
    assert haystack[i..][k] == p[k];
  }

  lemma NotMentioned(table: seq<string>, haystack: string, at: seq<nat>)
    requires |at| == |table|
    requires forall i :: 0 <= i < |table| ==> at[i] < |table[i]| && LowerChar(table[i][at[i]]) !in haystack
    ensures !Mentions(table, haystack)
  {
    hide Contains;
    forall i | 0 <= i < |table| ensures !Contains(haystack, Lower(table[i])) {
      if Contains(haystack, Lower(table[i])) {
        ContainsChars(haystack, Lower(table[i]), at[i]);
      }
    }
  }

  predicate InSlotText(c: char) {
    c in {'l', '2', '.', 'n', 'e', 'w', 'b', 'i', 'z', 't', 'a', 'm', ' ', '新', '业', '务', '潜', '在', '空', '间'}
  }

  lemma SlotText()
    ensures var h := Lower(SLOT + " " + SLOT_NAME);
            (forall c :: c in h ==> InSlotText(c)) && h == "l2.newbiz.tam 新业务潜在空间"
  {
    var h := Lower(SLOT + " " + SLOT_NAME);
    assert SLOT + " " + SLOT_NAME == "L2.newbiz.tam 新业务潜在空间";
    assert h == "l2.newbiz.tam 新业务潜在空间";
  }

  /** Where to look: "whisper" and "trade" have it second, so have the layer prefixes; "netbuy" fifth. */
  function Odd(i: int): nat { if i == 12 || 14 <= i <= 18 || i == 20 then 1 else if i == 24 then 4 else 0 }

  /** Every short-horizon keyword has a character the slot's text lacks. */
  lemma NoShortKeyword(i: nat)
    requires i < |SHORT_KEYWORDS|
    ensures Odd(i) < |SHORT_KEYWORDS[i]| && !InSlotText(LowerChar(SHORT_KEYWORDS[i][Odd(i)]))
  {
  }

  lemma SlotIsLong()
    ensures ClassifyHorizon(SLOT, SLOT_NAME) == LONG_MIX
  {
    hide Contains, InSlotText, SHORT_KEYWORDS, SLOT, SLOT_NAME;
    var h := Lower(SLOT + " " + SLOT_NAME);
    SlotText();
    var at := seq(|SHORT_KEYWORDS|, i => Odd(i));
    forall i | 0 <= i < |SHORT_KEYWORDS| ensures at[i] < |SHORT_KEYWORDS[i]| && LowerChar(SHORT_KEYWORDS[i][at[i]]) !in h {
      NoShortKeyword(i);
    }
    NotMentioned(SHORT_KEYWORDS, h, at);
    LongKeyword(h);
  }

  lemma LongKeyword(h: string)
    requires h == "l2.newbiz.tam 新业务潜在空间"
    ensures Mentions(LONG_KEYWORDS, h)
  {
    assert LONG_KEYWORDS[0] == "空间" && Lower("空间") == "空间";
    assert h[19..] == "空间";
    assert Contains(h, Lower(LONG_KEYWORDS[0]));
  }

  /** The bound 1.6 of the long horizon is reached: the new-business slot, filled in today with score 1 and
      future option value 1. Its name puts it on the long horizon. */
  lemma LongReachesBound(id: string, parent: string)
    ensures var n := ReadNode(FreshOption(id, parent)); InRange(n) && LongExceeds(n) && LeafChild(n).long == 1.6
  {
    hide ClassifyHorizon, NodeStatus, ScoreEnabled, DirectionSign;
    var raw := FreshOption(id, parent);
    SlotIsLong();
    SlotTexts(raw);
    assert raw.value.cells["score"] == CNum(1.0) && raw.value.cells["future_option_value"] == CNum(1.0);
  }
}
