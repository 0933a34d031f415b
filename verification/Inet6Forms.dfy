/** What the IPv6 parser takes beyond section 2.2 of RFC 4291: every accepted text
    has one form, and the form says whether the standard allows the text. */
module Inet6Forms {
  import opened CText
  import opened DottedQuad
  import opened Inet6Text
  import opened Inet6Parse

  function OrEmpty(fs: seq<string>): (r: seq<string>)
    ensures r != []
  {
    if fs == [] then [""] else fs
  }

  function Stray(trailing: bool): seq<string> {
    if trailing then [""] else []
  }

  /** What stands between the colons of a text, empty fields included. */
  function FieldsOf(t: Addr6Text, trailing: bool): seq<string> {
    match t
    case Plain(fs) => OrEmpty(fs) + Stray(trailing)
    case Gapped(before, after) => OrEmpty(before) + [""] + (OrEmpty(after) + Stray(trailing))
  }

  lemma {:induction false} JoinConcat(a: seq<string>, b: seq<string>, sep: char)
    requires a != [] && b != []
    ensures Join(a + b, sep) == Join(a, sep) + [sep] + Join(b, sep)
  {
    if |a| == 1 {
      assert (a + b)[1..] == b;
    } else {
      assert (a + b)[1..] == a[1..] + b;
      JoinConcat(a[1..], b, sep);
      assert a[0] + [sep] + (Join(a[1..], sep) + [sep] + Join(b, sep)) == Join(a, sep) + [sep] + Join(b, sep);
    }
  }

  lemma JoinOrEmpty(fs: seq<string>, trailing: bool)
    ensures Join(OrEmpty(fs), ':') == Join(fs, ':')
    ensures Join(OrEmpty(fs) + Stray(trailing), ':') == Join(fs, ':') + Trail(trailing)
  {
    if trailing {
      JoinConcat(OrEmpty(fs), [""], ':');
    } else {
      assert OrEmpty(fs) + [] == OrEmpty(fs);
    }
  }

  lemma JoinThree(b: seq<string>, r: seq<string>)
    requires b != [] && r != []
    ensures Join(b + [""] + r, ':') == Join(b, ':') + "::" + Join(r, ':')
  {
    JoinConcat(b, [""], ':');
    JoinConcat(b + [""], r, ':');
    assert Join([""], ':') == "";
    hide Join;
    assert Join(b, ':') + ":" + "" + ":" + Join(r, ':') == Join(b, ':') + "::" + Join(r, ':');
  }

  lemma JoinedFields(t: Addr6Text, trailing: bool)
    ensures Join(FieldsOf(t, trailing), ':') == Show(t) + Trail(trailing)
  {
    hide Join, OrEmpty, Stray;
    match t
    case Plain(fs) => JoinOrEmpty(fs, trailing);
    case Gapped(before, after) =>
      var rear := OrEmpty(after) + Stray(trailing);
      JoinOrEmpty(before, false);
      JoinOrEmpty(after, trailing);
      JoinThree(OrEmpty(before), rear);
      var b, a := Join(before, ':'), Join(after, ':');
      assert b + "::" + (a + Trail(trailing)) == b + "::" + a + Trail(trailing);
  }

  lemma FieldIsFree(f: string)
    requires f == "" || IsField(f)
    ensures Free(f, ':')
  {
    if QuadOf(f).Some? {
      QuadShape(f);
    }
  }

  lemma FormFields(t: Addr6Text, trailing: bool)
    requires Accepted(t, trailing)
    ensures FieldsOf(t, trailing) != []
    ensures forall i :: 0 <= i < |FieldsOf(t, trailing)| ==>
      FieldsOf(t, trailing)[i] == "" || IsField(FieldsOf(t, trailing)[i])
  {
    hide IsGroup;
  }

  /** The text of a form splits into the fields of the form. */
  lemma TextFields(t: Addr6Text, trailing: bool)
    requires Accepted(t, trailing)
    ensures Split(Show(t) + Trail(trailing), ':') == FieldsOf(t, trailing)
  {
    var f := FieldsOf(t, trailing);
    FormFields(t, trailing);
    JoinedFields(t, trailing);
    hide FieldsOf, Show, IsField, Join, Split;
    forall i | 0 <= i < |f| ensures Free(f[i], ':') {
      FieldIsFree(f[i]);
    }
    SplitJoin(f, ':');
  }

  /** The place of the first empty field, or the number of fields. */
  function FirstEmpty(f: seq<string>): (i: nat)
    ensures i <= |f| && "" !in f[..i] && (i < |f| ==> f[i] == "")
  {
    if f == [] || f[0] == "" then 0
    else
      var i := FirstEmpty(f[1..]);
      assert f[..i + 1] == [f[0]] + f[1..][..i];
      i + 1
  }

  /** The fields behind a gap, and whether a stray colon follows them. */
  function RearOf(f: seq<string>): (seq<string>, bool) {
    if f == [""] then ([], false)
    else if f != [] && f[|f| - 1] == "" then (f[..|f| - 1], true)
    else (f, false)
  }

  /** The form a list of fields comes from. */
  function FormOf(f: seq<string>): (Addr6Text, bool) {
    var i := FirstEmpty(f);
    if i >= |f| then (Plain(f), false)
    else if 0 < i == |f| - 1 then (Plain(f[..i]), true)
    else if i == 0 then
      var (after, trailing) := RearOf(if |f| < 2 then [] else f[2..]);
      (Gapped([], after), trailing)
    else
      var (after, trailing) := RearOf(f[i + 1..]);
      (Gapped(f[..i], after), trailing)
  }

  lemma FirstEmptyIs(f: seq<string>, i: nat)
    requires i <= |f| && "" !in f[..i] && (i < |f| ==> f[i] == "")
    ensures FirstEmpty(f) == i
  {
    var j := FirstEmpty(f);
    assert forall k :: 0 <= k < i ==> f[k] == f[..i][k];
    assert forall k :: 0 <= k < j ==> f[k] == f[..j][k];
  }

  lemma NoEmptyField(fs: seq<string>)
    requires Fields(fs)
    ensures "" !in fs
  {
  }

  lemma RearIs(after: seq<string>, trailing: bool)
    requires "" !in after && (trailing ==> after != [])
    ensures RearOf(OrEmpty(after) + Stray(trailing)) == (after, trailing)
  {
    if after != [] {
      var last := after[|after| - 1];
      assert last in after;
      if trailing {
        assert (after + [""])[..|after|] == after;
      } else {
        assert after + [] == after;
      }
    }
  }

  lemma PlainForm(fs: seq<string>, trailing: bool)
    requires "" !in fs && fs != []
    ensures FormOf(FieldsOf(Plain(fs), trailing)) == (Plain(fs), trailing)
  {
    hide FirstEmpty;
    var f := FieldsOf(Plain(fs), trailing);
    assert f[..|fs|] == fs && fs + [] == fs;
    FirstEmptyIs(f, |fs|);
  }

  lemma GappedForm(before: seq<string>, after: seq<string>, trailing: bool)
    requires "" !in before && "" !in after && (trailing ==> after != [])
    ensures FormOf(FieldsOf(Gapped(before, after), trailing)) == (Gapped(before, after), trailing)
  {
    RearIs(after, trailing);
    hide FirstEmpty, RearOf;
    var f, rear := FieldsOf(Gapped(before, after), trailing), OrEmpty(after) + Stray(trailing);
    assert f == OrEmpty(before) + [""] + rear;
    if before == [] {
      FirstEmptyIs(f, 0);
      assert f[2..] == rear;
    } else {
      assert f[..|before|] == before && f[|before| + 1..] == rear;
      FirstEmptyIs(f, |before|);
    }
  }

  /** An accepted text has one form. */
  lemma OneForm(t: Addr6Text, trailing: bool, u: Addr6Text, stray: bool)
    requires Accepted(t, trailing) && Accepted(u, stray)
    requires Show(t) + Trail(trailing) == Show(u) + Trail(stray)
    ensures t == u && trailing == stray
  {
    TextFields(t, trailing);
    TextFields(u, stray);
    FormIsFound(t, trailing);
    FormIsFound(u, stray);
  }

  lemma FormIsFound(t: Addr6Text, trailing: bool)
    requires Accepted(t, trailing)
    ensures FormOf(FieldsOf(t, trailing)) == (t, trailing)
  {
    match t
    case Plain(fs) =>
      NoEmptyField(fs);
      PlainForm(fs, trailing);
    case Gapped(before, after) =>
      NoEmptyField(before);
      NoEmptyField(after);
      GappedForm(before, after, trailing);
  }

  ghost predicate IsStandardText(src: string) {
    exists u :: Standard(u) && Show(u) == src
  }

  /** An accepted text is one of the standard exactly when it has no stray colon,
      no group of more than four digits, and no gap in a full address. */
  lemma StandardExactly(t: Addr6Text, trailing: bool)
    requires Accepted(t, trailing)
    ensures IsStandardText(Show(t) + Trail(trailing)) <==>
      && !trailing
      && match t
         case Plain(fs) => ShortGroups(fs)
         case Gapped(before, after) => ShortGroups(before) && ShortGroups(after) && |Written(t)| <= 14
  {
    var src := Show(t) + Trail(trailing);
    if IsStandardText(src) {
      var u :| Standard(u) && Show(u) == src;
      NoTrail(Show(u));
      OneForm(t, trailing, u, false);
    } else if !trailing {
      NoTrail(Show(t));
      assert !Standard(t);
      if t.Gapped? {
        BytesEven(t.before);
        BytesEven(t.after);
      }
    }
  }

  /** Three texts that are accepted although the standard has no such text: a
      stray colon, a group of five digits, and a gap in a full address. */
  lemma BeyondTheStandard()
    ensures ParseAddr6("1::2:").Some? && !IsStandardText("1::2:")
    ensures ParseAddr6("00001::2").Some? && !IsStandardText("00001::2")
    ensures var full := Show(Gapped(["1", "2", "3", "4", "5", "6", "7"], ["8"]));
      ParseAddr6(full).Some? && !IsStandardText(full)
  {
    StrayColon();
    FiveDigits();
    FullGap();
  }

  lemma StrayColon()
    ensures ParseAddr6("1::2:").Some? && !IsStandardText("1::2:")
  {
    OneDigit("1");
    OneDigit("2");
    BytesOne("1");
    BytesOne("2");
    var t := Gapped(["1"], ["2"]);
    AcceptedIsRead(t, true);
    StandardExactly(t, true);
    assert Show(t) + Trail(true) == "1::2:";
  }

  lemma FiveDigits()
    ensures ParseAddr6("00001::2").Some? && !IsStandardText("00001::2")
  {
    OneDigit("2");
    BytesOne("2");
    FiveDigitGroup();
    BytesOne("00001");
    var t := Gapped(["00001"], ["2"]);
    AcceptedIsRead(t, false);
    StandardExactly(t, false);
    assert ["00001"][0] == "00001";
    assert Show(t) + Trail(false) == "00001::2";
  }

  lemma FiveDigitGroup()
    ensures IsGroup("00001")
  {
    var s := "00001";
    assert s[..4] == "0000" && "0000"[..3] == "000" && "000"[..2] == "00" && "00"[..1] == "0" && "0"[..0] == "";
    assert HexVal("0") == 0 && HexVal("00") == 0 && HexVal("000") == 0 && HexVal("0000") == 0;
  }

  lemma FullGap()
    ensures var full := Show(Gapped(["1", "2", "3", "4", "5", "6", "7"], ["8"]));
      ParseAddr6(full).Some? && !IsStandardText(full)
  {
    var t := FullGapNotIgnored();
    AcceptedIsRead(t, false);
    StandardExactly(t, false);
    NoTrail(Show(t));
  }
}
