/** The protocol flag of the `gateway` command (cmd/htorrent/cmd/gateway.go):
    a comma-separated string turned into the list handed to the server. */
module GatewayCommand {
  import opened Text
  import Configure

  /** The default value of the `--protocols` flag. */
  const DefaultProtocols: string := "tcp,utp"

  /** Every string of `parts` with white space trimmed from both ends. */
  function TrimAll(parts: seq<string>): (r: seq<string>)
    ensures |r| == |parts|
    ensures forall i :: 0 <= i < |r| ==> r[i] == TrimSpace(parts[i])
  {
    if parts == [] then [] else [TrimSpace(parts[0])] + TrimAll(parts[1..])
  }

  /** The comma-separated segments of `s`, each trimmed. */
  function Segments(s: string): seq<string>
  {
    TrimAll(Split(s, ','))
  }

  /** An empty flag gives an empty list; otherwise every comma-separated
      segment, white space trimmed from both ends, in order. */
  function ParseProtocols(flag: string): (r: seq<string>)
    ensures flag == "" <==> r == []
    ensures flag != "" ==> |r| == Count(flag, ',') + 1
    ensures forall i :: 0 <= i < |r| ==> Trimmed(r[i])
  {
    if flag == "" then [] else Segments(flag)
  }

  /** No element holds a comma. */
  lemma ParseProtocolsCommaFree(flag: string)
    ensures forall i :: 0 <= i < |ParseProtocols(flag)| ==> ',' !in ParseProtocols(flag)[i]
  {
    var r := ParseProtocols(flag);
    forall i | 0 <= i < |r| ensures ',' !in r[i] {
      TrimSpaceWithin(Split(flag, ',')[i], ',');
    }
  }

  /** Each list element is its segment with surrounding white space removed. */
  lemma ParseProtocolsSegments(flag: string, i: nat)
    requires flag != "" && i < Count(flag, ',') + 1
    ensures ParseProtocols(flag)[i] == TrimSpace(Split(flag, ',')[i])
  {
  }

  /** A leading comma-free run becomes the first element. */
  lemma SegmentsCons(a: string, t: string)
    requires ',' !in a
    ensures Segments(a + [','] + t) == [TrimSpace(a)] + Segments(t)
  {
    SplitAfterPart(a, ',', t);
    assert ([a] + Split(t, ','))[1..] == Split(t, ',');
  }

  /** A comma-free string is a single element. */
  lemma SegmentsWhole(w: string)
    requires ',' !in w
    ensures Segments(w) == [TrimSpace(w)]
  {
    SplitWhole(w, ',');
  }

  /** Parsing undoes joining with commas, for any list of trimmed,
      comma-free names other than the single empty name. */
  lemma ParseJoined(names: seq<string>)
    requires |names| >= 1 && names != [""]
    requires forall i :: 0 <= i < |names| ==> Trimmed(names[i]) && ',' !in names[i]
    ensures ParseProtocols(Join(names, ',')) == names
  {
    assert |Join(names, ',')| > 0 by {
      if |names| > 1 {
        assert Join(names, ',') == names[0] + [','] + Join(names[1..], ',');
      }
    }
    forall i | 0 <= i < |names| ensures TrimSpace(names[i]) == names[i] {
      TrimmedNameStays(names[i]);
    }
    ParseSegments(names, names);
  }

  /** Each element is its segment trimmed, whatever the segments are. */
  lemma ParseSegments(segments: seq<string>, names: seq<string>)
    requires |segments| >= 1 && |names| == |segments|
    requires forall i :: 0 <= i < |segments| ==> ',' !in segments[i] && TrimSpace(segments[i]) == names[i]
    requires Join(segments, ',') != ""
    ensures ParseProtocols(Join(segments, ',')) == names
  {
    SplitJoin(segments, ',');
  }

  /** A name that is already trimmed is left as it is. */
  lemma TrimmedNameStays(name: string)
    requires Trimmed(name)
    ensures TrimSpace(name) == name
  {
    TrimSpacePadding([], name, []);
    assert [] + name + [] == name;
  }

  /** One blank before a trimmed name is removed. */
  lemma LeadingBlankTrimmed(name: string)
    requires Trimmed(name)
    ensures TrimSpace([' '] + name) == name
  {
    TrimSpacePadding([' '], name, []);
    assert [' '] + name + [] == [' '] + name;
  }

  /** Two names joined by a comma parse back to the pair. */
  lemma PairParses(a: string, b: string)
    requires Trimmed(a) && Trimmed(b) && ',' !in a && ',' !in b
    ensures ParseProtocols(a + [','] + b) == [a, b]
  {
    SegmentsCons(a, b);
    SegmentsWhole(b);
    TrimmedNameStays(a);
    TrimmedNameStays(b);
    assert Segments(a + [','] + b) == [a] + [b];
  }

  /** A name after a blank is a single element, the blank dropped. */
  lemma BlankSegment(b: string)
    requires Trimmed(b) && ',' !in b
    ensures Segments([' '] + b) == [b]
  {
    SegmentsWhole([' '] + b);
    LeadingBlankTrimmed(b);
  }

  /** Blanks after a comma are dropped: "a, b" parses to [a, b]. */
  lemma BlankAfterCommaDropped(a: string, b: string)
    requires Trimmed(a) && Trimmed(b) && ',' !in a && ',' !in b
    ensures ParseProtocols(a + ", " + b) == [a, b]
  {
    assert a + ", " + b == a + [','] + ([' '] + b);
    SegmentsCons(a, [' '] + b);
    BlankSegment(b);
    TrimmedNameStays(a);
    assert Segments(a + ", " + b) == [a] + [b];
  }

  /** "tcp, utp" parses to ["tcp", "utp"]. */
  lemma SpacedListParses()
    ensures ParseProtocols("tcp, utp") == ["tcp", "utp"]
  {
    assert "tcp, utp" == "tcp" + ", " + "utp";
    BlankAfterCommaDropped("tcp", "utp");
  }

  /** A comma right at the start leaves an empty first element. */
  lemma LeadingComma(b: string)
    requires Trimmed(b) && ',' !in b
    ensures Segments([','] + b) == ["", b]
  {
    assert [','] + b == [] + [','] + b;
    SegmentsCons([], b);
    SegmentsWhole(b);
    TrimmedNameStays([]);
    TrimmedNameStays(b);
    assert Segments([','] + b) == [""] + [b];
  }

  /** An empty segment between two names survives as "". */
  lemma EmptySegmentKept(a: string, b: string)
    requires Trimmed(a) && Trimmed(b) && ',' !in a && ',' !in b
    ensures ParseProtocols(a + ",," + b) == [a, "", b]
  {
    var t := [','] + b;
    assert a + ",," + b == a + [','] + t;
    SegmentsCons(a, t);
    LeadingComma(b);
    TrimmedNameStays(a);
    assert Segments(a + ",," + b) == [a] + ["", b];
  }

  /** "tcp,,utp" parses with an empty segment, which the server skips. */
  lemma EmptySegmentSurvives()
    ensures ParseProtocols("tcp,,utp") == ["tcp", "", "utp"]
  {
    assert "tcp,,utp" == "tcp" + ",," + "utp";
    EmptySegmentKept("tcp", "utp");
  }

  /** The transport flags the server sets for a given flag value. */
  function FlagTransports(flag: string, defaults: Configure.Transports): Configure.Transports
  {
    Configure.ResolveTransports(ParseProtocols(flag), defaults)
  }

  /** End to end: an empty flag keeps the engine's defaults; otherwise TCP
      is enabled iff some segment trims to "tcp" or no segment is
      recognised, likewise uTP, so never both are disabled. */
  lemma FlagTransportsSpec(flag: string, defaults: Configure.Transports)
    ensures flag == "" ==> FlagTransports(flag, defaults) == defaults
    ensures flag != "" ==>
      var ps := ParseProtocols(flag);
      var t := FlagTransports(flag, defaults);
      && (!t.disableTCP <==> "tcp" in ps || !Configure.Recognised(ps))
      && (!t.disableUTP <==> "utp" in ps || !Configure.Recognised(ps))
      && !(t.disableTCP && t.disableUTP)
  {
    Configure.ResolveTransportsExpected(ParseProtocols(flag), defaults);
  }

  /** The default flag value enables both transports. */
  lemma DefaultEnablesBoth(defaults: Configure.Transports)
    ensures FlagTransports(DefaultProtocols, defaults) == Configure.Transports(false, false)
  {
    assert DefaultProtocols == "tcp" + [','] + "utp";
    PairParses("tcp", "utp");
    Configure.ResolveTransportsExpected(["tcp", "utp"], defaults);
  }
}
