/**
 * EnumSourceGenerator.Generate: the text of one enum declaration, optionally
 * wrapped in a namespace. Unlike the line-based generators it writes the
 * members with Append and a `first` flag, so it is modelled on the text
 * itself; MembersAsLines then shows that this text is the familiar
 * one-member-per-line layout.
 */
module EnumSourceGenerator {
  import opened Text
  import opened Collections
  import opened Outcomes

  /** The enum definition this generator consumes; `members` is None for a null enumerator. */
  datatype EnumDefinition = EnumDefinition(namespace: string, name: string, members: Option<seq<string>>)

  // ---------------------------------------------------------------- using directives

  /** A using entry as written by the caller: trimmed, dropped when blank, one trailing `;` removed. */
  function NormalizeUsing(ns: string): (r: Option<string>)
    ensures r.None? <==> IsBlank(ns)
    ensures r.Some? ==> IsTrimmed(r.value) && StartsWith(Trim(ns), r.value)
    ensures r.Some? ==> |r.value| == |Trim(ns)|
                        || (EndsWith(Trim(ns), ";") && IsBlank(Trim(ns)[|r.value|..|Trim(ns)| - 1]))
  {
    var u := Trim(ns);
    if IsBlank(u) then None
    else if EndsWith(u, ";") then
      var v := TrimEnd(u[..|u| - 1]);
      TrimEndSpec(u[..|u| - 1]);
      assert v != [] ==> v[0] == u[0];
      assert u[|v|..|u| - 1] == u[..|u| - 1][|v|..];
      Some(v)
    else Some(u)
  }

  /** The kept using entries, normalised, in the order given. */
  function NormalizedUsings(usings: seq<string>): (r: seq<string>)
    ensures forall k :: 0 <= k < |r| ==> IsTrimmed(r[k])
  {
    if usings == [] then []
    else
      var n := NormalizeUsing(usings[|usings| - 1]);
      NormalizedUsings(usings[..|usings| - 1]) + (if n.Some? then [n.value] else [])
  }

  /** The using lines: each distinct entry once, in first-seen order, then one blank line if there were any. */
  function UsingSection(usings: Option<seq<string>>): seq<string> {
    if usings.None? then []
    else
      var seen := Distinct(NormalizedUsings(usings.value));
      UsingLines(seen) + (if seen == [] then [] else [""])
  }

  /** Every kept entry gets exactly one using line, and no other using line is written. */
  lemma UsingsEmittedOnce(usings: seq<string>)
    ensures var lines := UsingSection(Some(usings));
      (forall u :: "using " + u + ";" in lines <==> u in NormalizedUsings(usings))
      && (forall i, j :: 0 <= i < j < |lines| && lines[i] != "" ==> lines[i] != lines[j])
  {
    var seen := Distinct(NormalizedUsings(usings));
    var written := UsingLines(seen);
    var trailer: seq<string> := if seen == [] then [] else [""];
    assert UsingSection(Some(usings)) == written + trailer;
    UsingLinesDistinct(seen);
    assert Elems(seen) == Elems(NormalizedUsings(usings));
    assert forall u :: u in seen <==> u in Elems(seen);
    SectionMembership(written, trailer, seen, NormalizedUsings(usings));
    SectionDistinct(written, trailer);
  }

  /** Blank lines after the using lines add no using line. */
  lemma SectionMembership(written: seq<string>, trailer: seq<string>, seen: seq<string>, kept: seq<string>)
    requires forall x :: x in trailer ==> x == ""
    requires forall u :: "using " + u + ";" in written <==> u in seen
    requires forall u :: u in seen <==> u in kept
    ensures forall u :: "using " + u + ";" in written + trailer <==> u in kept
  {
    forall u ensures "using " + u + ";" in written + trailer <==> u in kept {
      assert "using " + u + ";" != "";
    }
  }

  /** Distinct lines followed by blank lines: every non-blank line occurs once. */
  lemma SectionDistinct(written: seq<string>, trailer: seq<string>)
    requires forall x :: x in trailer ==> x == ""
    requires forall i, j :: 0 <= i < j < |written| ==> written[i] != written[j]
    ensures var lines := written + trailer;
      forall i, j :: 0 <= i < j < |lines| && lines[i] != "" ==> lines[i] != lines[j]
  {
    var lines := written + trailer;
    forall i, j | 0 <= i < j < |lines| && lines[i] != "" ensures lines[i] != lines[j] {
      if j >= |written| {
        assert lines[j] == trailer[j - |written|] && trailer[j - |written|] in trailer;
      } else {
        assert lines[i] == written[i] && lines[j] == written[j];
      }
    }
  }

  // ---------------------------------------------------------------- members

  /** The non-blank members, trimmed, in enumeration order. */
  function KeptMembers(ms: seq<string>): (r: seq<string>)
    ensures forall k :: 0 <= k < |r| ==> IsTrimmed(r[k]) && r[k] != []
  {
    if ms == [] then []
    else
      var m := ms[|ms| - 1];
      KeptMembers(ms[..|ms| - 1]) + (if IsBlank(m) then [] else [Trim(m)])
  }

  /** Four spaces before each member. */
  function IndentEach(xs: seq<string>): (r: seq<string>)
    ensures |r| == |xs| && forall k :: 0 <= k < |xs| ==> r[k] == Pad(1) + xs[k]
  {
    seq(|xs|, k requires 0 <= k < |xs| => Pad(1) + xs[k])
  }

  /** What the member loop writes: members separated by ",\n", then the closing newline; nothing for a null enumerator. */
  function MembersText(members: Option<seq<string>>): string {
    if members.None? then ""
    else Join(IndentEach(KeptMembers(members.value)), ",\n") + "\n"
  }

  /** The whole generated text for a definition with a non-blank name. */
  function EnumSourceText(usings: Option<seq<string>>, d: EnumDefinition): string {
    var hasNamespace := !IsBlank(d.namespace);
    Unlines(UsingSection(usings)
            + (if hasNamespace then ["namespace " + d.namespace, "{"] else [])
            + ["public enum " + d.name, "{"])
    + MembersText(d.members)
    + Unlines(["}"] + (if hasNamespace then ["}"] else []))
  }

  // ---------------------------------------------------------------- properties

  /** The comma-separated member text is one line per member, a comma on every line but the last. */
  lemma {:induction false} JoinedMemberLines(xs: seq<string>)
    requires xs != []
    ensures Join(IndentEach(xs), ",\n") + "\n" == Unlines(MemberLines(xs, 1))
  {
    var lines := MemberLines(xs, 1);
    if |xs| == 1 {
      assert lines[0] == Pad(1) + xs[0] + "" == Pad(1) + xs[0];
      assert Join(IndentEach(xs), ",\n") == Pad(1) + xs[0];
      assert lines == [lines[0]] && lines[1..] == [];
    } else {
      JoinedMemberLines(xs[1..]);
      assert IndentEach(xs)[1..] == IndentEach(xs[1..]);
      assert lines[1..] == MemberLines(xs[1..], 1);
      assert lines[0] == Pad(1) + xs[0] + ",";
    }
  }

  /**
   * The member text as lines: one member per line at four spaces with commas
   * between, a single empty line when every member is blank, and nothing at
   * all when the enumerator is null.
   */
  lemma MembersAsLines(members: Option<seq<string>>)
    ensures members.None? ==> MembersText(members) == ""
    ensures members.Some? && KeptMembers(members.value) == [] ==> MembersText(members) == Unlines([""])
    ensures members.Some? && KeptMembers(members.value) != [] ==>
              MembersText(members) == Unlines(MemberLines(KeptMembers(members.value), 1))
  {
    if members.Some? && KeptMembers(members.value) != [] {
      JoinedMemberLines(KeptMembers(members.value));
    }
  }

  /** The output always ends with the enum's closing brace, or the namespace's after it. */
  lemma EndsWithClosingBrace(usings: Option<seq<string>>, d: EnumDefinition)
    ensures EndsWith(EnumSourceText(usings, d), "}\n")
    ensures !IsBlank(d.namespace) ==> EndsWith(EnumSourceText(usings, d), "}\n}\n")
  {
    var closing := ["}"] + (if !IsBlank(d.namespace) then ["}"] else []);
    var tail := Unlines(closing);
    var head := Unlines(UsingSection(usings)
                        + (if !IsBlank(d.namespace) then ["namespace " + d.namespace, "{"] else [])
                        + ["public enum " + d.name, "{"])
                + MembersText(d.members);
    assert EnumSourceText(usings, d) == head + tail;
    assert Unlines(["}"]) == "}\n" by {
      assert ["}"][1..] == [];
    }
    if !IsBlank(d.namespace) {
      assert Unlines(["}", "}"]) == "}\n" + Unlines(["}"]) by {
        assert ["}", "}"][1..] == ["}"];
      }
      assert tail == "}\n}\n";
      EndsWithAppend(head, "}\n", "}\n");
    } else {
      assert closing == ["}"];
      EndsWithAppend(head, "", "}\n");
    }
  }

  /** A text followed by more text ending in `p` ends in `p`. */
  lemma EndsWithAppend(head: string, middle: string, p: string)
    ensures EndsWith(head + (middle + p), p) && EndsWith(head + (middle + p), middle + p)
  {
    var s := head + (middle + p);
    assert s[|s| - |p|..] == p;
    assert s[|s| - |middle + p|..] == middle + p;
  }

  // ---------------------------------------------------------------- the generator

  /** The HashSet of usings, filled by one Add per kept entry. */
  method CollectUsings(usings: seq<string>) returns (seen: seq<string>)
    ensures seen == Distinct(NormalizedUsings(usings))
  {
    seen := [];
    for k := 0 to |usings|
      invariant seen == Distinct(NormalizedUsings(usings[..k]))
    {
      assert usings[..k + 1][..k] == usings[..k];
      var u := NormalizeUsing(usings[k]);
      if u.Some? {
        DistinctSnoc(NormalizedUsings(usings[..k]), u.value);
        seen := AddUnique(seen, u.value);
      } else {
        assert NormalizedUsings(usings[..k + 1]) == NormalizedUsings(usings[..k]);
      }
    }
    assert usings[..|usings|] == usings;
  }

  /** One more kept member adds the separator, unless it is the first, and the indented member. */
  lemma JoinMemberSnoc(kept: seq<string>, x: string)
    ensures Join(IndentEach(kept + [x]), ",\n")
            == if kept == [] then Pad(1) + x else Join(IndentEach(kept), ",\n") + ",\n" + (Pad(1) + x)
  {
    assert IndentEach(kept + [x]) == IndentEach(kept) + [Pad(1) + x];
    if kept != [] {
      JoinSnoc(IndentEach(kept), Pad(1) + x, ",\n");
    }
  }

  lemma KeptMembersSnoc(ms: seq<string>, k: nat)
    requires k < |ms|
    ensures KeptMembers(ms[..k + 1]) == KeptMembers(ms[..k]) + (if IsBlank(ms[k]) then [] else [Trim(ms[k])])
  {
    assert ms[..k + 1][..k] == ms[..k];
  }

  /** The member loop: blank members skipped, a ",\n" before every member but the first, then one newline. */
  method AppendMembers(sb: string, ms: seq<string>) returns (text: string)
    ensures text == sb + MembersText(Some(ms))
  {
    var body := "";
    var first := true;
    for k := 0 to |ms|
      invariant first <==> KeptMembers(ms[..k]) == []
      invariant body == Join(IndentEach(KeptMembers(ms[..k])), ",\n")
    {
      KeptMembersSnoc(ms, k);
      var member := ms[k];
      if IsBlank(member) {
        assert KeptMembers(ms[..k + 1]) == KeptMembers(ms[..k]) + [];
        assert KeptMembers(ms[..k + 1]) == KeptMembers(ms[..k]);
        continue;
      }
      ghost var kept := KeptMembers(ms[..k]);
      JoinMemberSnoc(kept, Trim(member));
      assert KeptMembers(ms[..k + 1]) == kept + [Trim(member)];
      if !first {
        body := body + ",\n";
      } else {
        assert body == "";
      }
      body := body + (Pad(1) + Trim(member));
      assert body == Join(IndentEach(kept + [Trim(member)]), ",\n");
      first := false;
    }
    assert ms[..|ms|] == ms;
    text := sb + (body + "\n");
  }

  /** EnumSourceGenerator.Generate */
  method Generate(usingNamespaces: Option<seq<string>>, definition: Option<EnumDefinition>) returns (result: Result<string>)
    ensures definition.None? ==> result == Err(ArgumentNull("definition"))
    ensures definition.Some? && IsBlank(definition.value.name) ==> result == Err(Argument("definition"))
    ensures definition.Some? && !IsBlank(definition.value.name) ==>
              result == Ok(EnumSourceText(usingNamespaces, definition.value))
  {
    if definition.None? {
      return Err(ArgumentNull("definition"));
    }
    var d := definition.value;
    if IsBlank(d.name) {
      return Err(Argument("definition"));
    }
    var lines: seq<string> := [];
    if usingNamespaces.Some? {
      var seen := CollectUsings(usingNamespaces.value);
      lines := UsingLines(seen);
      if |seen| > 0 {
        lines := lines + [""];
      }
    }
    assert lines == UsingSection(usingNamespaces);
    var hasNamespace := !IsBlank(d.namespace);
    var open: seq<string> := [];
    if hasNamespace {
      open := ["namespace " + d.namespace, "{"];
    }
    lines := lines + open + ["public enum " + d.name, "{"];
    var sb := Unlines(lines);
    if d.members.Some? {
      sb := AppendMembers(sb, d.members.value);
    } else {
      assert sb == sb + MembersText(d.members);
    }
    var close := ["}"];
    if hasNamespace {
      close := close + ["}"];
    }
    sb := sb + Unlines(close);
    return Ok(sb);
  }
}
