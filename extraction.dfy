/** `parse_entity_extraction` as functions of the text and the state: line
    normalisation, the section splitter, the attribute parsers, the per-line
    grammar of each section and the whole parse.  Every loop of the source is a
    left fold here, so that the loops in knowledge_graph.dfy can be proved
    against it.

    The source calls `eval('{' + attrs_str + '}')` to read attribute text of
    the COMPANIES and MARKETS sections.  `eval` runs arbitrary Python, so the
    parse takes its outcome as a parameter, an `Evaluator`; the source's own
    fallbacks follow it. */
module Extraction {
  import opened Values
  import opened Strings
  import MultiGraph
  import opened GraphStore

  // ---------------------------------------------------------------------------
  // Lines and sections

  /** The stripped non-blank lines among `ls`, in order. */
  function NonBlank(ls: seq<string>): (r: seq<string>)
    ensures forall k :: 0 <= k < |r| ==> r[k] != [] && Strip(r[k]) == r[k]
  {
    if ls == [] then []
    else
      var l := Strip(ls[|ls| - 1]);
      StripIdempotent(ls[|ls| - 1]);
      NonBlank(ls[..|ls| - 1]) + (if l != [] then [l] else [])
  }

  /** `[line.strip() for line in extracted_text.split('\n') if line.strip()]` */
  function NormalizeLines(text: string): (r: seq<string>)
    ensures forall k :: 0 <= k < |r| ==> r[k] != [] && Strip(r[k]) == r[k]
  {
    NonBlank(Split(text, "\n"))
  }

  datatype Section = Companies | Products | Markets | People | Relationships

  /** The section whose marker `line` starts with, compared in upper case. */
  function MarkerOf(line: string): (r: Option<Section>)
    ensures r == Some(Companies) <==> StartsWith(Upper(line), "COMPANIES:")
    ensures r == Some(Products) <==> StartsWith(Upper(line), "PRODUCTS:")
    ensures r == Some(Markets) <==> StartsWith(Upper(line), "MARKETS:")
    ensures r == Some(People) <==> StartsWith(Upper(line), "PEOPLE:")
    ensures r == Some(Relationships) <==> StartsWith(Upper(line), "RELATIONSHIPS:")
  {
    var u := Upper(line);
    MarkerHeads(u);
    if StartsWith(u, "COMPANIES:") then Some(Companies)
    else if StartsWith(u, "PRODUCTS:") then Some(Products)
    else if StartsWith(u, "MARKETS:") then Some(Markets)
    else if StartsWith(u, "PEOPLE:") then Some(People)
    else if StartsWith(u, "RELATIONSHIPS:") then Some(Relationships)
    else None
  }

  /** A line that starts with a section marker starts with the marker's first letter. */
  lemma MarkerHeads(u: string)
    ensures StartsWith(u, "COMPANIES:") ==> u[0] == 'C'
    ensures StartsWith(u, "PRODUCTS:") ==> u[0] == 'P' && u[1] == 'R'
    ensures StartsWith(u, "MARKETS:") ==> u[0] == 'M'
    ensures StartsWith(u, "PEOPLE:") ==> u[0] == 'P' && u[1] == 'E'
    ensures StartsWith(u, "RELATIONSHIPS:") ==> u[0] == 'R'
  {
    if |u| >= 2 {
      assert u[..2][0] == u[0] && u[..2][1] == u[1];
    }
  }

  /** `current_section`, `current_content` and `sections` of the splitter. */
  datatype Splitter = Splitter(current: Option<Section>, content: seq<string>, sections: map<Section, seq<string>>)

  const Start: Splitter := Splitter(None, [], map[])

  /** `sections` with the open section recorded, when it has content. */
  function Close(st: Splitter): (r: map<Section, seq<string>>)
    ensures st.current.Some? && st.content != [] ==> r == st.sections[st.current.value := st.content]
    ensures !(st.current.Some? && st.content != []) ==> r == st.sections
  {
    if st.current.Some? && st.content != [] then st.sections[st.current.value := st.content] else st.sections
  }

  /** One iteration of the splitter loop: a marker line records the open section
      and opens its own; another line joins the open section, if any. */
  function Step(st: Splitter, line: string): (r: Splitter)
    ensures MarkerOf(line).Some? ==> r.current == MarkerOf(line) && r.content == []
    ensures MarkerOf(line).None? ==> r.current == st.current && r.sections == st.sections
    ensures MarkerOf(line).None? && st.current.Some? ==> r.content == st.content + [line]
    ensures MarkerOf(line).None? && st.current.None? ==> r == st
  {
    match MarkerOf(line)
    case Some(sec) => Splitter(Some(sec), [], Close(st))
    case None => if st.current.Some? then st.(content := st.content + [line]) else st
  }

  function Run(st: Splitter, lines: seq<string>): Splitter
    decreases |lines|
  {
    if lines == [] then st else Run(Step(st, lines[0]), lines[1..])
  }

  /** The `sections` dictionary built from the normalised lines. */
  function SplitSections(lines: seq<string>): map<Section, seq<string>> {
    Close(Run(Start, lines))
  }

  lemma {:induction false} RunAppend(st: Splitter, a: seq<string>, b: seq<string>)
    decreases |a|
    ensures Run(st, a + b) == Run(Run(st, a), b)
  {
    if a != [] {
      assert (a + b)[0] == a[0] && (a + b)[1..] == a[1..] + b;
      assert Run(st, a + b) == Run(Step(st, a[0]), a[1..] + b);
      assert Run(st, a) == Run(Step(st, a[0]), a[1..]);
      RunAppend(Step(st, a[0]), a[1..], b);
    } else {
      assert a + b == b;
    }
  }

  /** Lines before the first marker are discarded. */
  lemma {:induction false} LeadingLinesDropped(lines: seq<string>)
    requires forall k :: 0 <= k < |lines| ==> MarkerOf(lines[k]).None?
    ensures Run(Start, lines) == Start
    decreases |lines|
  {
    if lines != [] {
      LeadingLinesDropped(lines[1..]);
    }
  }

  /** Lines without a marker after an open section are collected in order. */
  lemma {:induction false} BlockCollected(st: Splitter, block: seq<string>)
    requires st.current.Some?
    requires forall k :: 0 <= k < |block| ==> MarkerOf(block[k]).None?
    ensures Run(st, block) == st.(content := st.content + block)
    decreases |block|
  {
    if block != [] {
      BlockCollected(st.(content := st.content + [block[0]]), block[1..]);
      assert st.content + [block[0]] + block[1..] == st.content + block;
    }
  }

  /** A marker followed by lines without a marker, at the end of the text:
      with content, the block replaces whatever that section held before; with
      none, the section is not recorded and keeps its earlier content. */
  lemma LastBlockWins(before: seq<string>, marker: string, sec: Section, block: seq<string>)
    requires MarkerOf(marker) == Some(sec)
    requires forall k :: 0 <= k < |block| ==> MarkerOf(block[k]).None?
    ensures SplitSections(before + [marker] + block)
         == if block == [] then SplitSections(before) else SplitSections(before)[sec := block]
  {
    var st := Run(Start, before);
    RunAppend(Start, before, [marker] + block);
    assert before + [marker] + block == before + ([marker] + block);
    assert ([marker] + block)[0] == marker && ([marker] + block)[1..] == block;
    var started := Splitter(Some(sec), [], Close(st));
    assert Run(st, [marker] + block) == Run(started, block);
    BlockCollected(started, block);
    var last := started.(content := [] + block);
    assert Run(Start, before + [marker] + block) == last;
    assert SplitSections(before + [marker] + block) == Close(last);
    assert [] + block == block;
    assert SplitSections(before) == Close(st);
  }

  /** Every section the splitter records has content, and every content line
      is one of the lines and not a marker. */
  lemma RecordedSections(lines: seq<string>)
    ensures SectionsSound(SplitSections(lines), lines)
  {
    RecordedSectionsFrom(Start, lines, lines);
  }

  /** Every section in `r` has content, and every content line is one of
      `lines` and not a marker. */
  ghost predicate SectionsSound(r: map<Section, seq<string>>, lines: seq<string>) {
    && (forall sec :: sec in r ==> r[sec] != [])
    && (forall sec, l :: sec in r && l in r[sec] ==> l in lines && MarkerOf(l).None?)
  }

  /** The invariant of the splitter loop behind `RecordedSections`. */
  ghost predicate SplitterSound(st: Splitter, lines: seq<string>) {
    && (forall sec :: sec in st.sections ==> st.sections[sec] != [])
    && (forall sec, l :: sec in st.sections && l in st.sections[sec] ==> l in lines && MarkerOf(l).None?)
    && (forall l :: l in st.content ==> l in lines && MarkerOf(l).None?)
  }

  lemma CloseSound(st: Splitter, lines: seq<string>)
    requires SplitterSound(st, lines)
    ensures SectionsSound(Close(st), lines)
  {
    var r := Close(st);
    forall sec | sec in r ensures r[sec] != [] && forall l :: l in r[sec] ==> l in lines && MarkerOf(l).None? {
      if st.current.Some? && st.content != [] && sec == st.current.value {
        assert r[sec] == st.content;
      } else {
        assert r[sec] == st.sections[sec];
      }
    }
  }

  lemma StepSound(st: Splitter, line: string, lines: seq<string>)
    requires SplitterSound(st, lines) && line in lines
    ensures SplitterSound(Step(st, line), lines)
  {
    CloseSound(st, lines);
  }

  lemma {:induction false} RecordedSectionsFrom(st: Splitter, rest: seq<string>, lines: seq<string>)
    requires forall l :: l in rest ==> l in lines
    requires SplitterSound(st, lines)
    ensures SectionsSound(Close(Run(st, rest)), lines)
    decreases |rest|
  {
    if rest == [] {
      CloseSound(st, lines);
    } else {
      assert rest[0] in lines;
      assert forall l :: l in rest[1..] ==> l in rest;
      StepSound(st, rest[0], lines);
      assert Run(st, rest) == Run(Step(st, rest[0]), rest[1..]);
      RecordedSectionsFrom(Step(st, rest[0]), rest[1..], lines);
    }
  }

  /** The content of the section `sec`, empty when it was not recorded. */
  function SectionLines(sections: map<Section, seq<string>>, sec: Section): seq<string> {
    if sec in sections then sections[sec] else []
  }

  // ---------------------------------------------------------------------------
  // Attribute text

  /** `'=' in piece` followed by `k, v = piece.split('=', 1)`, both stripped. */
  function KeyValue(piece: string): (r: Option<(string, string)>)
    ensures r.None? <==> !Contains(piece, "=")
  {
    var (k, v) := Partition(piece, "=");
    if v.None? then None else Some((Strip(k), Strip(v.value)))
  }

  /** Every piece contains `=`. */
  predicate AllPairs(pieces: seq<string>) {
    forall k :: 0 <= k < |pieces| ==> Contains(pieces[k], "=")
  }

  /** Reads a text made only of key=value pieces, later keys overriding
      earlier ones; fails at the first piece without `=`. */
  function StrictPairs(pieces: seq<string>, acc: map<string, string>): (r: Option<map<string, string>>)
    decreases |pieces|
    ensures r.Some? <==> AllPairs(pieces)
  {
    if pieces == [] then Some(acc)
    else
      AllPairsTail(pieces);
      match KeyValue(pieces[0])
      case None => None
      case Some(kv) => StrictPairs(pieces[1..], acc[kv.0 := kv.1])
  }

  /** What `eval` makes of a dictionary display such as `{'k': 'v'}`: a
      dictionary of strings, or `None` when evaluation raises. */
  type Evaluator = string -> Option<map<string, string>>

  /** `'{' + text + '}'`, the string handed to `eval`. */
  function Braced(text: string): string {
    "{" + text + "}"
  }

  /** The loop at the fallback of the COMPANIES section: each key=value piece
      sets its key, and each other piece sets `description` to the whole text. */
  function LoosePairs(pieces: seq<string>, whole: string, acc: map<string, string>): (r: map<string, string>)
    decreases |pieces|
  {
    if pieces == [] then acc
    else
      var acc' := match KeyValue(pieces[0])
                  case Some(kv) => acc[kv.0 := kv.1]
                  case None => acc["description" := Strip(whole)];
      LoosePairs(pieces[1..], whole, acc')
  }

  /** The attributes of a COMPANIES line, from the stripped text after the
      name: what `eval` reads, or else the fallback loop. */
  function CompanyAttrs(attrsText: string, ev: Evaluator): (r: map<string, string>) {
    match ev(Braced(attrsText))
    case Some(m) => m
    case None => CompanyFallback(attrsText)
  }

  /** The fallback loop of the COMPANIES section over the comma pieces. */
  function CompanyFallback(attrsText: string): map<string, string> {
    LoosePairs(Split(attrsText, ","), attrsText, map[])
  }

  /** The attributes of a MARKETS line: what `eval` reads, or else the stripped
      text as the description. */
  function MarketAttrs(attrsText: string, ev: Evaluator): (r: map<string, string>)
    ensures ev(Braced(Strip(attrsText))).Some? ==> r == ev(Braced(Strip(attrsText))).value
    ensures ev(Braced(Strip(attrsText))).None? ==> r == map["description" := Strip(attrsText)]
  {
    match ev(Braced(Strip(attrsText)))
    case Some(m) => m
    case None => map["description" := Strip(attrsText)]
  }

  /** On a text made only of key=value pieces, the fallback loop reads exactly
      those pairs. */
  lemma {:induction false} StrictAgreesWithLoose(pieces: seq<string>, whole: string, acc: map<string, string>)
    requires StrictPairs(pieces, acc).Some?
    ensures LoosePairs(pieces, whole, acc) == StrictPairs(pieces, acc).value
    decreases |pieces|
  {
    if pieces != [] {
      var kv := KeyValue(pieces[0]).value;
      StrictAgreesWithLoose(pieces[1..], whole, acc[kv.0 := kv.1]);
    }
  }

  lemma {:induction false} LooseKeepsDescription(pieces: seq<string>, whole: string, acc: map<string, string>)
    requires "description" in acc || !AllPairs(pieces)
    ensures "description" in LoosePairs(pieces, whole, acc)
    decreases |pieces|
  {
    if pieces != [] {
      var acc' := match KeyValue(pieces[0])
                  case Some(kv) => acc[kv.0 := kv.1]
                  case None => acc["description" := Strip(whole)];
      AllPairsTail(pieces);
      LooseKeepsDescription(pieces[1..], whole, acc');
    }
  }

  lemma AllPairsTail(pieces: seq<string>)
    requires pieces != []
    ensures AllPairs(pieces) <==> Contains(pieces[0], "=") && AllPairs(pieces[1..])
  {
    forall k | 1 <= k < |pieces| ensures pieces[k] == pieces[1..][k - 1] {}
  }

  /** When `eval` raises on a COMPANIES attribute text, the fallback loop
      reads exactly the key=value pairs of a text made only of them, and
      otherwise records a `description`. */
  lemma CompanyAttrsFallback(attrsText: string, ev: Evaluator)
    requires ev(Braced(attrsText)).None?
    ensures AllPairs(Split(attrsText, ",")) ==>
      CompanyAttrs(attrsText, ev) == StrictPairs(Split(attrsText, ","), map[]).value
    ensures !AllPairs(Split(attrsText, ",")) ==> "description" in CompanyAttrs(attrsText, ev)
  {
    if AllPairs(Split(attrsText, ",")) {
      StrictAgreesWithLoose(Split(attrsText, ","), attrsText, map[]);
    } else {
      LooseKeepsDescription(Split(attrsText, ","), attrsText, map[]);
    }
  }

  // ---------------------------------------------------------------------------
  // Company inference

  /** The first of `candidates` that `text` mentions, ignoring case. */
  function FirstMentioned(candidates: seq<string>, text: string): (r: Option<string>)
    ensures r.Some? ==> r.value in candidates && Mentions(text, r.value)
    ensures r.Some? ==> exists k :: (0 <= k < |candidates| && candidates[k] == r.value && Mentions(text, r.value)
                                     && forall j :: 0 <= j < k ==> !Mentions(text, candidates[j]))
    ensures r.None? ==> forall k :: 0 <= k < |candidates| ==> !Mentions(text, candidates[k])
    decreases |candidates|
  {
    if candidates == [] then None
    else if Mentions(text, candidates[0]) then Some(candidates[0])
    else
      var r := FirstMentioned(candidates[1..], text);
      if r.Some? then
        var k :| 0 <= k < |candidates[1..]| && candidates[1..][k] == r.value && Mentions(text, r.value)
                 && forall j :: 0 <= j < k ==> !Mentions(text, candidates[1..][j]);
        assert candidates[k + 1] == r.value;
        assert forall j :: 1 <= j < k + 1 ==> candidates[j] == candidates[1..][j - 1];
        r
      else r
  }

  /** The owner of a product: the `company=` value when it is non-empty,
      otherwise, when the attribute text has at least two words, the competitor
      or else the user company if the text mentions it; `""` for none. */
  function ProductOwner(explicit: string, attrsText: string, user: string, competitor: string): (r: string)
    ensures explicit != [] ==> r == explicit
    ensures r != explicit ==> |Words(attrsText)| >= 2 && (r == competitor || r == user)
  {
    if explicit == [] && |Words(attrsText)| >= 2 then
      match FirstMentioned([competitor, user], attrsText)
      case Some(c) => c
      case None => explicit
    else explicit
  }

  /** The owner of a person: the `company=` value when it is non-empty,
      otherwise the user company or else the competitor if the text mentions it,
      with no word-count guard; `""` for none. */
  function PersonOwner(explicit: string, attrsText: string, user: string, competitor: string): (r: string)
    ensures explicit != [] ==> r == explicit
    ensures r != explicit ==> r == user || r == competitor
  {
    if explicit == [] then
      match FirstMentioned([user, competitor], attrsText)
      case Some(c) => c
      case None => explicit
    else explicit
  }

  /** Inference for products tries the competitor first and needs two words;
      for people it tries the user company first and needs none. */
  lemma InferenceOrder(attrsText: string, user: string, competitor: string)
    requires Mentions(attrsText, user) && Mentions(attrsText, competitor)
    ensures |Words(attrsText)| >= 2 ==> ProductOwner("", attrsText, user, competitor) == competitor
    ensures |Words(attrsText)| < 2 ==> ProductOwner("", attrsText, user, competitor) == ""
    ensures PersonOwner("", attrsText, user, competitor) == user
  {
  }

  /** An inferred owner is one of the two anchors, and the text mentions it. */
  lemma InferredOwner(attrsText: string, user: string, competitor: string)
    ensures var o := ProductOwner("", attrsText, user, competitor);
      o == [] || ((o == user || o == competitor) && Mentions(attrsText, o))
    ensures var o := PersonOwner("", attrsText, user, competitor);
      o == [] || ((o == user || o == competitor) && Mentions(attrsText, o))
  {
  }

  // ---------------------------------------------------------------------------
  // Per-line attribute loops

  /** One comma piece of an attribute text, stripped: a key=value pair (both
      sides stripped) when it contains `=`, plain text otherwise. */
  datatype Piece = Pair(key: string, value: string) | Plain(text: string)

  function ParsePiece(piece: string): (r: Piece)
    ensures r.Plain? <==> !Contains(Strip(piece), "=")
    ensures r.Plain? ==> r.text == Strip(piece)
  {
    var a := Strip(piece);
    match KeyValue(a)
    case Some(kv) => Pair(kv.0, kv.1)
    case None => Plain(a)
  }

  /** `[ParsePiece(p) for p in parts]` */
  function ParsePieces(parts: seq<string>): (r: seq<Piece>)
    ensures |r| == |parts|
  {
    if parts == [] then [] else [ParsePiece(parts[0])] + ParsePieces(parts[1..])
  }

  /** The attributes and `company=` value of a PRODUCTS line. */
  datatype ProductFields = ProductFields(attrs: map<string, string>, company: string)

  /** One turn of the attribute loop of the PRODUCTS section: `company=` sets the
      company, any other key=value piece sets its key, and a piece without `=`
      sets `description` to the piece. */
  function ProductStep(acc: ProductFields, e: Piece): (r: ProductFields)
    ensures r.company == acc.company || r.attrs == acc.attrs
  {
    match e
    case Pair(key, value) => if key == "company" then acc.(company := value) else acc.(attrs := acc.attrs[key := value])
    case Plain(text) => acc.(attrs := acc.attrs["description" := text])
  }

  /** The attribute loop of the PRODUCTS section. */
  function ProductPieces(pieces: seq<Piece>, acc: ProductFields): (r: ProductFields)
    decreases |pieces|
    ensures "company" !in acc.attrs ==> "company" !in r.attrs
  {
    if pieces == [] then acc else ProductPieces(pieces[1..], ProductStep(acc, pieces[0]))
  }

  /** The role and `company=` value of a PEOPLE line. */
  datatype PersonFields = PersonFields(role: string, company: string)

  /** One turn of the attribute loop of the PEOPLE section: keys are compared in
      lower case; `company` sets the company, `role`, `position` and `title` set
      the role, and everything else is ignored. */
  function PersonStep(acc: PersonFields, e: Piece): (r: PersonFields)
    ensures r.company == acc.company || r.role == acc.role
  {
    match e
    case Pair(key, value) =>
      var k := Lower(key);
      if k == "company" then acc.(company := value)
      else if k == "role" || k == "position" || k == "title" then acc.(role := value)
      else acc
    case Plain(_) => acc
  }

  /** The attribute loop of the PEOPLE section. */
  function PersonPieces(pieces: seq<Piece>, acc: PersonFields): (r: PersonFields)
    decreases |pieces|
  {
    if pieces == [] then acc else PersonPieces(pieces[1..], PersonStep(acc, pieces[0]))
  }

  /** A field the attribute loops can set. */
  datatype Field = ProductAttr(key: string) | ProductCompany | PersonCompany | PersonRole

  /** The value one piece gives `f`, if it gives one. */
  function Pick(f: Field, e: Piece): Option<string> {
    match e
    case Pair(key, value) =>
      (match f
       case ProductAttr(k) => if key != "company" && key == k then Some(value) else None
       case ProductCompany => if key == "company" then Some(value) else None
       case PersonCompany => if Lower(key) == "company" then Some(value) else None
       case PersonRole =>
         var k := Lower(key);
         if k == "role" || k == "position" || k == "title" then Some(value) else None)
    case Plain(text) =>
      if f == ProductAttr("description") then Some(text) else None
  }

  /** The value the last piece that gives `f` a value gives it. */
  function LastPick(pieces: seq<Piece>, f: Field): Option<string>
    decreases |pieces|
  {
    if pieces == [] then None
    else if Pick(f, pieces[|pieces| - 1]).Some? then Pick(f, pieces[|pieces| - 1])
    else LastPick(pieces[..|pieces| - 1], f)
  }

  /** `LastPick` finds the value of the last piece that gives one, and nothing
      only when no piece does. */
  lemma {:induction false} LastPickSound(pieces: seq<Piece>, f: Field)
    ensures LastPick(pieces, f).Some? ==>
      exists k :: (0 <= k < |pieces| && Pick(f, pieces[k]) == LastPick(pieces, f)
                   && forall j :: k < j < |pieces| ==> Pick(f, pieces[j]).None?)
    ensures LastPick(pieces, f).None? ==> forall k :: 0 <= k < |pieces| ==> Pick(f, pieces[k]).None?
    decreases |pieces|
  {
    if pieces != [] {
      var n := |pieces| - 1;
      if Pick(f, pieces[n]).Some? {
        assert LastPick(pieces, f) == Pick(f, pieces[n]);
      } else {
        var init := pieces[..n];
        assert LastPick(pieces, f) == LastPick(init, f);
        LastPickSound(init, f);
        if LastPick(init, f).Some? {
          var k :| 0 <= k < |init| && Pick(f, init[k]) == LastPick(init, f)
                   && forall j :: k < j < |init| ==> Pick(f, init[j]).None?;
          assert pieces[k] == init[k];
          assert forall j :: k < j < |pieces| ==> Pick(f, pieces[j]).None? by {
            forall j | k < j < |pieces| ensures Pick(f, pieces[j]).None? {
              if j < n { assert pieces[j] == init[j]; }
            }
          }
        } else {
          forall k | 0 <= k < |pieces| ensures Pick(f, pieces[k]).None? {
            if k < n { assert pieces[k] == init[k]; }
          }
        }
      }
    }
  }

  /** `o`'s value, or `d` when there is none. */
  function OrElse(o: Option<string>, d: string): (r: string)
    ensures o.Some? ==> r == o.value
    ensures o.None? ==> r == d
  {
    match o
    case Some(v) => v
    case None => d
  }

  /** `m.get(k)` on the string dictionaries the parser builds. */
  function Lookup(m: map<string, string>, k: string): (r: Option<string>)
    ensures r.Some? <==> k in m
    ensures r.Some? ==> r.value == m[k]
  {
    if k in m then Some(m[k]) else None
  }

  /** One turn of the product loop sets exactly what the piece picks. */
  lemma ProductStepPicks(acc: ProductFields, p: Piece)
    ensures ProductStep(acc, p).company == OrElse(Pick(ProductCompany, p), acc.company)
    ensures forall k :: k != "company" ==>
      Lookup(ProductStep(acc, p).attrs, k)
        == if Pick(ProductAttr(k), p).Some? then Pick(ProductAttr(k), p) else Lookup(acc.attrs, k)
  {
  }

  /** One turn of the person loop sets exactly what the piece picks. */
  lemma PersonStepPicks(acc: PersonFields, p: Piece)
    ensures PersonStep(acc, p).company == OrElse(Pick(PersonCompany, p), acc.company)
    ensures PersonStep(acc, p).role == OrElse(Pick(PersonRole, p), acc.role)
  {
  }

  lemma {:induction false} ProductPiecesSnoc(pieces: seq<Piece>, p: Piece, acc: ProductFields)
    ensures ProductPieces(pieces + [p], acc) == ProductStep(ProductPieces(pieces, acc), p)
    decreases |pieces|
  {
    if pieces == [] {
      assert [] + [p] == [p];
    } else {
      assert (pieces + [p])[1..] == pieces[1..] + [p];
      ProductPiecesSnoc(pieces[1..], p, ProductStep(acc, pieces[0]));
    }
  }

  lemma {:induction false} PersonPiecesSnoc(pieces: seq<Piece>, p: Piece, acc: PersonFields)
    ensures PersonPieces(pieces + [p], acc) == PersonStep(PersonPieces(pieces, acc), p)
    decreases |pieces|
  {
    if pieces == [] {
      assert [] + [p] == [p];
    } else {
      assert (pieces + [p])[1..] == pieces[1..] + [p];
      PersonPiecesSnoc(pieces[1..], p, PersonStep(acc, pieces[0]));
    }
  }

  /** The product loop keeps, for the company and for every other key, the value
      of the last piece that sets it, and what `acc` held when none does. */
  lemma {:induction false} ProductFieldsLastWins(pieces: seq<Piece>, acc: ProductFields)
    ensures ProductPieces(pieces, acc).company == OrElse(LastPick(pieces, ProductCompany), acc.company)
    ensures forall k :: k != "company" ==>
      Lookup(ProductPieces(pieces, acc).attrs, k)
        == if LastPick(pieces, ProductAttr(k)).Some? then LastPick(pieces, ProductAttr(k)) else Lookup(acc.attrs, k)
    decreases |pieces|
  {
    if pieces != [] {
      var init := pieces[..|pieces| - 1];
      var p := pieces[|pieces| - 1];
      InitLast(pieces);
      ProductPiecesSnoc(init, p, acc);
      ProductFieldsLastWins(init, acc);
      ProductStepPicks(ProductPieces(init, acc), p);
    }
  }

  /** The person loop keeps the last `company` value and the last `role`,
      `position` or `title` value, and what `acc` held when there is none. */
  lemma {:induction false} PersonFieldsLastWins(pieces: seq<Piece>, acc: PersonFields)
    ensures PersonPieces(pieces, acc).company == OrElse(LastPick(pieces, PersonCompany), acc.company)
    ensures PersonPieces(pieces, acc).role == OrElse(LastPick(pieces, PersonRole), acc.role)
    decreases |pieces|
  {
    if pieces != [] {
      var init := pieces[..|pieces| - 1];
      var p := pieces[|pieces| - 1];
      InitLast(pieces);
      PersonPiecesSnoc(init, p, acc);
      PersonFieldsLastWins(init, acc);
      PersonStepPicks(PersonPieces(init, acc), p);
    }
  }

  // ---------------------------------------------------------------------------
  // One line of each section

  /** `line.startswith('- ')`, then `line[2:].strip()`. */
  function Bullet(line: string): (r: Option<string>)
    ensures r.Some? <==> StartsWith(line, "- ")
  {
    if StartsWith(line, "- ") then Some(Strip(line[2..])) else None
  }

  /** A bullet `- Name: text`: the stripped name and the text after the first
      `:`, or nothing when the line is no bullet or the bullet has no `:`. */
  function Labelled(line: string): (r: Option<(string, string)>)
    ensures r.Some? <==> StartsWith(line, "- ") && Contains(Strip(line[2..]), ":")
  {
    match Bullet(line)
    case None => None
    case Some(rest) =>
      var (name, text) := Partition(rest, ":");
      if text.None? then None else Some((Strip(name), text.value))
  }

  /** What a COMPANIES line `- Name: attributes` reads: the stripped name and
      the attributes, or nothing when the bullet has no `:`. */
  datatype CompanyEntry = CompanyEntry(name: string, attrs: map<string, string>)

  function ReadCompany(line: string, ev: Evaluator): (r: Option<CompanyEntry>)
    ensures r.Some? ==> StartsWith(line, "- ")
  {
    match Labelled(line)
    case None => None
    case Some((name, attrsText)) => Some(CompanyEntry(name, CompanyAttrs(Strip(attrsText), ev)))
  }

  /** A COMPANIES line adds the company unless a node of that name exists. */
  function CompanyLine(s: Store, line: string, now: Timestamp, ev: Evaluator): (r: Store)
    ensures Valid(s) ==> Valid(r)
  {
    match ReadCompany(line, ev)
    case None => s
    case Some(e) => if e.name in s.graph.nodes then s else AddCompany(s, e.name, TextAttrs(e.attrs), now)
  }

  /** What a PRODUCTS line `- Name: attributes` reads: the stripped name, the
      owner given or inferred (`""` for none) and the attributes. */
  datatype ProductEntry = ProductEntry(name: string, owner: string, attrs: map<string, string>)

  function ReadProduct(line: string, user: string, competitor: string): (r: Option<ProductEntry>)
    ensures r.Some? ==> StartsWith(line, "- ") && "company" !in r.value.attrs
  {
    match Labelled(line)
    case None => None
    case Some((name, attrsText)) =>
      var f := ProductPieces(ParsePieces(Split(attrsText, ",")), ProductFields(map[], ""));
      Some(ProductEntry(name, ProductOwner(f.company, attrsText, user, competitor), f.attrs))
  }

  /** A PRODUCTS line adds the product when an owner is given or inferred. */
  function ProductLine(s: Store, line: string, user: string, competitor: string, now: Timestamp): (r: Store)
    ensures Valid(s) ==> Valid(r)
  {
    match ReadProduct(line, user, competitor)
    case None => s
    case Some(e) => if e.owner == [] then s else AddProduct(s, e.name, e.owner, TextAttrs(e.attrs), now)
  }

  /** The `operates_in` loop over the names listed under `companies`: only names
      that are nodes are linked. */
  function LinkCompanies(s: Store, names: seq<string>, market: string, now: Timestamp): (r: Store)
    decreases |names|
    ensures Valid(s) ==> Valid(r)
  {
    if names == [] then s
    else
      var s' := if names[0] in s.graph.nodes then AddRelationship(s, names[0], market, "operates_in", map[], now) else s;
      LinkCompanies(s', names[1..], market, now)
  }

  /** `[c.strip() for c in companies.split(',')]` */
  function CompanyNames(text: string): (r: seq<string>)
    ensures |r| == |Split(text, ",")| && forall k :: 0 <= k < |r| ==> r[k] == Strip(Split(text, ",")[k])
  {
    var parts := Split(text, ",");
    seq(|parts|, k requires 0 <= k < |parts| => Strip(parts[k]))
  }

  /** What a MARKETS line `- Name: attributes` reads: the stripped name and the
      attributes. */
  datatype MarketEntry = MarketEntry(name: string, attrs: map<string, string>)

  function ReadMarket(line: string, ev: Evaluator): (r: Option<MarketEntry>)
    ensures r.Some? ==> StartsWith(line, "- ")
  {
    match Labelled(line)
    case None => None
    case Some((name, attrsText)) => Some(MarketEntry(name, MarketAttrs(attrsText, ev)))
  }

  /** `add_market` is called for the line and raises, so the line's `except`
      skips the links as well. */
  predicate MarketAddRaises(s: Store, e: MarketEntry) {
    e.name !in s.graph.nodes && NodeCallRaises(TextAttrs(e.attrs))
  }

  /** The market is added unless a node of that name exists; then the listed
      companies are linked, or both anchors when no `companies` key is given. */
  function ApplyMarket(s: Store, e: MarketEntry, user: string, competitor: string, now: Timestamp): (r: Store)
    ensures Valid(s) ==> Valid(r)
  {
    if MarketAddRaises(s, e) then s
    else
    var s1 := if e.name in s.graph.nodes then s else AddMarket(s, e.name, TextAttrs(e.attrs), now);
    if "companies" in e.attrs then LinkCompanies(s1, CompanyNames(e.attrs["companies"]), e.name, now)
    else
      var s2 := AddRelationship(s1, user, e.name, "operates_in", map[], now);
      AddRelationship(s2, competitor, e.name, "operates_in", map[], now)
  }

  function MarketLine(s: Store, line: string, user: string, competitor: string, now: Timestamp, ev: Evaluator): (r: Store)
    ensures Valid(s) ==> Valid(r)
  {
    match ReadMarket(line, ev)
    case None => s
    case Some(e) => ApplyMarket(s, e, user, competitor, now)
  }

  /** What a PEOPLE line `- Name: attributes` reads: the stripped name, the
      employer given or inferred (`""` for none) and the role. */
  datatype PersonEntry = PersonEntry(name: string, owner: string, role: string)

  function ReadPerson(line: string, user: string, competitor: string): (r: Option<PersonEntry>)
    ensures r.Some? ==> StartsWith(line, "- ")
  {
    match Labelled(line)
    case None => None
    case Some((name, attrsText)) =>
      var f := PersonPieces(ParsePieces(Split(attrsText, ",")), PersonFields("Unknown", ""));
      Some(PersonEntry(name, PersonOwner(f.company, attrsText, user, competitor), f.role))
  }

  /** A PEOPLE line adds the person when an employer is given or inferred. */
  function PersonLine(s: Store, line: string, user: string, competitor: string, now: Timestamp): (r: Store)
    ensures Valid(s) ==> Valid(r)
  {
    match ReadPerson(line, user, competitor)
    case None => s
    case Some(e) => if e.owner == [] then s else AddPerson(s, e.name, e.owner, e.role, map[], now)
  }

  /** The pieces of a RELATIONSHIPS line `- Source -> type -> Target: text`. */
  datatype Arrow = Arrow(source: string, relType: string, target: string, description: string)

  /** The arrow a RELATIONSHIPS line reads, if it has at least two `->`; the
      description is `""` when there is no `:` after the target or nothing
      after it. */
  function ArrowOf(rest: string): (r: Option<Arrow>)
    ensures r.Some? ==> |Split(rest, "->")| >= 3 && Contains(rest, "->")
  {
    if !Contains(rest, "->") then None
    else
      var parts := Split(rest, "->");
      if |parts| < 3 then None
      else
        var (t, d) := Partition(parts[2], ":");
        Some(Arrow(Strip(parts[0]), Strip(parts[1]), Strip(t), if d.Some? then Strip(d.value) else []))
  }

  /** The attributes of the relationship: a `description` only when there is
      text after the target. */
  function ArrowAttrs(a: Arrow): (r: Attrs)
    ensures "description" in r <==> a.description != []
    ensures "key" !in r && !EdgeCallRaises(r)
  {
    if a.description != [] then map["description" := Text(a.description)] else map[]
  }

  /** The arrow a RELATIONSHIPS line reads. */
  function ReadArrow(line: string): (r: Option<Arrow>)
    ensures r.Some? ==> StartsWith(line, "- ")
  {
    match Bullet(line)
    case None => None
    case Some(rest) => ArrowOf(rest)
  }

  /** The relationship is added when both endpoints are nodes. */
  function ApplyArrow(s: Store, a: Arrow, now: Timestamp): (r: Store)
    ensures Valid(s) ==> Valid(r)
  {
    if a.source in s.graph.nodes && a.target in s.graph.nodes then
      AddRelationship(s, a.source, a.target, a.relType, ArrowAttrs(a), now)
    else s
  }

  function RelationshipLine(s: Store, line: string, now: Timestamp): (r: Store)
    ensures Valid(s) ==> Valid(r)
  {
    match ReadArrow(line)
    case None => s
    case Some(a) => ApplyArrow(s, a, now)
  }

  // ---------------------------------------------------------------------------
  // Sections and the whole parse

  function CompanyLines(s: Store, lines: seq<string>, now: Timestamp, ev: Evaluator): (r: Store)
    decreases |lines|
    ensures Valid(s) ==> Valid(r)
  {
    if lines == [] then s else CompanyLines(CompanyLine(s, lines[0], now, ev), lines[1..], now, ev)
  }

  function ProductLines(s: Store, lines: seq<string>, user: string, competitor: string, now: Timestamp): (r: Store)
    decreases |lines|
    ensures Valid(s) ==> Valid(r)
  {
    if lines == [] then s else ProductLines(ProductLine(s, lines[0], user, competitor, now), lines[1..], user, competitor, now)
  }

  function MarketLines(s: Store, lines: seq<string>, user: string, competitor: string, now: Timestamp, ev: Evaluator): (r: Store)
    decreases |lines|
    ensures Valid(s) ==> Valid(r)
  {
    if lines == [] then s else MarketLines(MarketLine(s, lines[0], user, competitor, now, ev), lines[1..], user, competitor, now, ev)
  }

  function PersonLines(s: Store, lines: seq<string>, user: string, competitor: string, now: Timestamp): (r: Store)
    decreases |lines|
    ensures Valid(s) ==> Valid(r)
  {
    if lines == [] then s else PersonLines(PersonLine(s, lines[0], user, competitor, now), lines[1..], user, competitor, now)
  }

  function RelationshipLines(s: Store, lines: seq<string>, now: Timestamp): (r: Store)
    decreases |lines|
    ensures Valid(s) ==> Valid(r)
  {
    if lines == [] then s else RelationshipLines(RelationshipLine(s, lines[0], now), lines[1..], now)
  }

  /** The first statements of `parse_entity_extraction`: the user company is
      added when absent; the competitor, when absent, is added together with a
      `competes_with` edge from the user company. */
  function Bootstrap(s: Store, user: string, competitor: string, now: Timestamp): (r: Store)
    ensures Valid(s) ==> Valid(r)
  {
    var s1 := if user in s.graph.nodes then s else AddCompany(s, user, map["is_user_company" := Flag(true)], now);
    if competitor in s1.graph.nodes then s1
    else
      var s2 := AddCompany(s1, competitor, map["is_competitor" := Flag(true)], now);
      AddRelationship(s2, user, competitor, "competes_with", map["identified_at" := Text(now)], now)
  }

  /** `parse_entity_extraction(extracted_text, user_company, competitor)` */
  function Parse(s: Store, text: string, user: string, competitor: string, now: Timestamp, ev: Evaluator): (r: Store)
    ensures Valid(s) ==> Valid(r)
  {
    var s1 := Bootstrap(s, user, competitor, now);
    var sections := SplitSections(NormalizeLines(text));
    var s2 := CompanyLines(s1, SectionLines(sections, Companies), now, ev);
    var s3 := ProductLines(s2, SectionLines(sections, Products), user, competitor, now);
    var s4 := MarketLines(s3, SectionLines(sections, Markets), user, competitor, now, ev);
    var s5 := PersonLines(s4, SectionLines(sections, People), user, competitor, now);
    RelationshipLines(s5, SectionLines(sections, Relationships), now)
  }

  // ---------------------------------------------------------------------------
  // What the parse guarantees

  /** No node that `s` has is removed or has its attributes changed. */
  ghost predicate KeepsNodes(s: Store, r: Store) {
    forall n :: n in s.graph.nodes ==> n in r.graph.nodes && r.graph.nodes[n] == s.graph.nodes[n]
  }

  lemma KeepsNodesTransitive(s: Store, t: Store, u: Store)
    requires KeepsNodes(s, t) && KeepsNodes(t, u)
    ensures KeepsNodes(s, u)
  {
  }

  /** After the first statements both anchors are nodes; the `competes_with`
      edge is added exactly when the competitor was not a node once the user
      company was there, and the state is unchanged when both already were. */
  lemma BootstrapEffect(s: Store, user: string, competitor: string, now: Timestamp)
    ensures var r := Bootstrap(s, user, competitor, now);
      && user in r.graph.nodes && competitor in r.graph.nodes
      && Extends(s, r) && KeepsNodes(s, r)
      && (user in s.graph.nodes && competitor in s.graph.nodes ==> r == s)
      && (competitor in s.graph.nodes || competitor == user ==> r.graph.edges == s.graph.edges)
      && (competitor !in s.graph.nodes && competitor != user ==>
            r.graph.edges == s.graph.edges + [MultiGraph.Edge(user, competitor,
              map["identified_at" := Text(now), "relationship_type" := Text("competes_with"), "added_at" := Text(now)])])
  {
    assert !NodeCallRaises(map["is_user_company" := Flag(true)]) && !NodeCallRaises(map["is_competitor" := Flag(true)]);
    assert !EdgeCallRaises(map["identified_at" := Text(now)]);
    var s1 := if user in s.graph.nodes then s else AddCompany(s, user, map["is_user_company" := Flag(true)], now);
    ExtendsReflexive(s);
    AddCompanyExtends(s, user, map["is_user_company" := Flag(true)], now);
    assert Extends(s, s1);
    if competitor !in s1.graph.nodes {
      var s2 := AddCompany(s1, competitor, map["is_competitor" := Flag(true)], now);
      AddCompanyExtends(s1, competitor, map["is_competitor" := Flag(true)], now);
      AddRelationshipExtends(s2, user, competitor, "competes_with", map["identified_at" := Text(now)], now);
      ExtendsTransitive(s, s1, s2);
      ExtendsTransitive(s, s2, Bootstrap(s, user, competitor, now));
      assert EdgeRecord(map["identified_at" := Text(now)], "competes_with", now)
          == map["identified_at" := Text(now), "relationship_type" := Text("competes_with"), "added_at" := Text(now)];
    }
  }

  /** A line that is not a `- ` bullet reads as nothing in any section, and so
      changes nothing. */
  lemma NonBulletIgnored(s: Store, line: string, user: string, competitor: string, now: Timestamp, ev: Evaluator)
    requires !StartsWith(line, "- ")
    ensures CompanyLine(s, line, now, ev) == s
    ensures ProductLine(s, line, user, competitor, now) == s
    ensures MarketLine(s, line, user, competitor, now, ev) == s
    ensures PersonLine(s, line, user, competitor, now) == s
    ensures RelationshipLine(s, line, now) == s
  {
  }

  /** A COMPANIES line adds at most one company, as a new last node, and never
      touches an existing node or any edge. */
  lemma CompanyLineEffect(s: Store, line: string, now: Timestamp, ev: Evaluator)
    ensures var r := CompanyLine(s, line, now, ev);
      && Extends(s, r) && KeepsNodes(s, r) && r.graph.edges == s.graph.edges
      && (r != s ==> && ReadCompany(line, ev).Some?
                     && |r.graph.order| == |s.graph.order| + 1
                     && r.graph.order[|s.graph.order|] == ReadCompany(line, ev).value.name
                     && ReadCompany(line, ev).value.name !in s.graph.nodes
                     && MultiGraph.IsKind(r.graph, ReadCompany(line, ev).value.name, "company"))
  {
    var r := CompanyLine(s, line, now, ev);
    ExtendsReflexive(s);
    match ReadCompany(line, ev)
    case None =>
    case Some(e) =>
      var a := TextAttrs(e.attrs);
      if e.name !in s.graph.nodes && !NodeCallRaises(a) {
        assert r == AddCompany(s, e.name, a, now);
        AddCompanyExtends(s, e.name, a, now);
        AddCompanyEffect(s, e.name, a, now);
      } else {
        assert r == s;
      }
  }

  /** A COMPANIES line whose company is new and whose attributes `add_node`
      accepts makes the company a `company` node carrying every attribute the
      line gives (except the two the record sets itself); any other line leaves
      the store as it was. */
  lemma CompanyLineAdds(s: Store, line: string, now: Timestamp, ev: Evaluator)
    ensures var o := ReadCompany(line, ev); var r := CompanyLine(s, line, now, ev);
      && (o.None? ==> r == s)
      && (o.Some? && (o.value.name in s.graph.nodes || NodeCallRaises(TextAttrs(o.value.attrs))) ==> r == s)
      && (o.Some? && o.value.name !in s.graph.nodes && !NodeCallRaises(TextAttrs(o.value.attrs)) ==>
            && MultiGraph.IsKind(r.graph, o.value.name, "company")
            && forall k :: k in o.value.attrs && k != "entity_type" && k != "added_at" ==>
                 MultiGraph.NodeGet(r.graph, o.value.name, k) == Some(Text(o.value.attrs[k])))
  {
    var r := CompanyLine(s, line, now, ev);
    match ReadCompany(line, ev)
    case None =>
    case Some(e) =>
      var a := TextAttrs(e.attrs);
      if e.name !in s.graph.nodes {
        assert r == AddCompany(s, e.name, a, now);
        AddCompanyEffect(s, e.name, a, now);
      } else {
        assert r == s;
      }
  }

  /** A PRODUCTS line with an owner, given or inferred, whose attributes
      `add_node` accepts makes the product a `product` node carrying the line's
      attributes and appends exactly one edge, `produces`, from the owner to the
      product, with its history record; a line without an owner, or one whose
      call raises, leaves the store as it was. */
  lemma ProductLineEffect(s: Store, line: string, user: string, competitor: string, now: Timestamp)
    ensures var o := ReadProduct(line, user, competitor); var r := ProductLine(s, line, user, competitor, now);
      && (o.None? ==> r == s)
      && (o.Some? && (o.value.owner == [] || NodeCallRaises(TextAttrs(o.value.attrs))) ==> r == s)
      && (o.Some? && o.value.owner != [] && !NodeCallRaises(TextAttrs(o.value.attrs)) ==>
            && MultiGraph.IsKind(r.graph, o.value.name, "product")
            && o.value.owner in r.graph.nodes
            && (forall k :: k in o.value.attrs && k != "entity_type" && k != "added_at" ==>
                  MultiGraph.NodeGet(r.graph, o.value.name, k) == Some(Text(o.value.attrs[k])))
            && |r.graph.edges| == |s.graph.edges| + 1
            && r.graph.edges[..|s.graph.edges|] == s.graph.edges
            && r.graph.edges[|s.graph.edges|].src == o.value.owner
            && r.graph.edges[|s.graph.edges|].tgt == o.value.name
            && MultiGraph.HasType(r.graph.edges[|s.graph.edges|].attrs, "produces")
            && r.history == s.history + [HistoryRecord(o.value.owner, o.value.name, "produces", now)])
  {
    var r := ProductLine(s, line, user, competitor, now);
    match ReadProduct(line, user, competitor)
    case None =>
    case Some(e) =>
      var a := TextAttrs(e.attrs);
      if e.owner != [] {
        assert r == AddProduct(s, e.name, e.owner, a, now);
        AddProductEffect(s, e.name, e.owner, a, now);
      } else {
        assert r == s;
      }
  }

  /** A PEOPLE line with an employer, given or inferred, makes the person a
      `person` node holding the role read from the line and appends exactly one
      edge, `works_at`, from the person to the employer, carrying the same role,
      with its history record; a line without an employer leaves the store as it
      was.  The person is added with no other attributes, so the call never
      raises. */
  lemma PersonLineEffect(s: Store, line: string, user: string, competitor: string, now: Timestamp)
    ensures var o := ReadPerson(line, user, competitor); var r := PersonLine(s, line, user, competitor, now);
      && ((o.None? || o.value.owner == []) ==> r == s)
      && (o.Some? && o.value.owner != [] ==>
            && MultiGraph.IsKind(r.graph, o.value.name, "person")
            && o.value.owner in r.graph.nodes
            && MultiGraph.NodeGet(r.graph, o.value.name, "role") == Some(Text(o.value.role))
            && |r.graph.edges| == |s.graph.edges| + 1
            && r.graph.edges[..|s.graph.edges|] == s.graph.edges
            && r.graph.edges[|s.graph.edges|].src == o.value.name
            && r.graph.edges[|s.graph.edges|].tgt == o.value.owner
            && MultiGraph.HasType(r.graph.edges[|s.graph.edges|].attrs, "works_at")
            && Get(r.graph.edges[|s.graph.edges|].attrs, "role") == Some(Text(o.value.role))
            && r.history == s.history + [HistoryRecord(o.value.name, o.value.owner, "works_at", now)])
  {
    var r := PersonLine(s, line, user, competitor, now);
    match ReadPerson(line, user, competitor)
    case None =>
    case Some(e) =>
      if e.owner != [] {
        EmptyAttributesAccepted();
        assert r == AddPerson(s, e.name, e.owner, e.role, map[], now);
        AddPersonEffect(s, e.name, e.owner, e.role, map[], now);
      } else {
        assert r == s;
      }
  }


  /** The `operates_in` loop adds one edge per listed name that is a node, in
      list order, and adds no node. */
  lemma {:induction false} LinkCompaniesEffect(s: Store, names: seq<string>, market: string, now: Timestamp)
    requires market in s.graph.nodes
    ensures var r := LinkCompanies(s, names, market, now);
      && Extends(s, r) && r.graph.nodes == s.graph.nodes && r.graph.order == s.graph.order
      && forall k :: |s.graph.edges| <= k < |r.graph.edges| ==>
           r.graph.edges[k].tgt == market && r.graph.edges[k].src in names
           && MultiGraph.HasType(r.graph.edges[k].attrs, "operates_in")
    decreases |names|
  {
    ExtendsReflexive(s);
    if names != [] {
      var s' := if names[0] in s.graph.nodes then AddRelationship(s, names[0], market, "operates_in", map[], now) else s;
      AddRelationshipExtends(s, names[0], market, "operates_in", map[], now);
      if names[0] in s.graph.nodes {
        MultiGraph.AddEdgeBetweenNodes(s.graph, names[0], market, EdgeRecord(map[], "operates_in", now));
      }
      LinkCompaniesEffect(s', names[1..], market, now);
      var r := LinkCompanies(s, names, market, now);
      ExtendsTransitive(s, s', r);
      forall k | |s.graph.edges| <= k < |r.graph.edges|
        ensures r.graph.edges[k].tgt == market && r.graph.edges[k].src in names
                && MultiGraph.HasType(r.graph.edges[k].attrs, "operates_in")
      {
        if k < |s'.graph.edges| {
          assert r.graph.edges[k] == r.graph.edges[..|s'.graph.edges|][k];
        } else {
          assert r.graph.edges[k].src in names[1..];
        }
      }
    }
  }

  /** A MARKETS line that gives no `companies` key links both anchors to the
      market with `operates_in` edges, user company first. */
  lemma MarketDefaultLinks(s: Store, e: MarketEntry, user: string, competitor: string, now: Timestamp)
    requires "companies" !in e.attrs
    ensures MarketAddRaises(s, e) ==> ApplyMarket(s, e, user, competitor, now) == s
    ensures var r := ApplyMarket(s, e, user, competitor, now);
      !MarketAddRaises(s, e) ==>
      && |r.graph.edges| == |s.graph.edges| + 2
      && r.graph.edges[|s.graph.edges|].src == user && r.graph.edges[|s.graph.edges|].tgt == e.name
      && r.graph.edges[|s.graph.edges| + 1].src == competitor && r.graph.edges[|s.graph.edges| + 1].tgt == e.name
      && MultiGraph.HasType(r.graph.edges[|s.graph.edges|].attrs, "operates_in")
      && MultiGraph.HasType(r.graph.edges[|s.graph.edges| + 1].attrs, "operates_in")
  {
    if !MarketAddRaises(s, e) {
      var s1 := if e.name in s.graph.nodes then s else AddMarket(s, e.name, TextAttrs(e.attrs), now);
      var s2 := AddRelationship(s1, user, e.name, "operates_in", map[], now);
      AddRelationshipAppendsOne(s1, user, e.name, "operates_in", map[], now);
      AddRelationshipAppendsOne(s2, competitor, e.name, "operates_in", map[], now);
      var r := ApplyMarket(s, e, user, competitor, now);
      assert r.graph.edges[|s.graph.edges|] == r.graph.edges[..|s2.graph.edges|][|s.graph.edges|];
    }
  }

  /** A MARKETS line never changes an existing node, and keeps everything the
      state had. */
  lemma MarketLineEffect(s: Store, line: string, user: string, competitor: string, now: Timestamp, ev: Evaluator)
    ensures var r := MarketLine(s, line, user, competitor, now, ev);
      Extends(s, r) && KeepsNodes(s, r)
  {
    ExtendsReflexive(s);
    match ReadMarket(line, ev)
    case None =>
    case Some(e) =>
      if !MarketAddRaises(s, e) {
        var s1 := if e.name in s.graph.nodes then s else AddMarket(s, e.name, TextAttrs(e.attrs), now);
        AddMarketExtends(s, e.name, TextAttrs(e.attrs), now);
        assert Extends(s, s1) && KeepsNodes(s, s1);
        var r := ApplyMarket(s, e, user, competitor, now);
        if "companies" in e.attrs {
          LinkCompaniesEffect(s1, CompanyNames(e.attrs["companies"]), e.name, now);
        } else {
          var s2 := AddRelationship(s1, user, e.name, "operates_in", map[], now);
          AddRelationshipExtends(s1, user, e.name, "operates_in", map[], now);
          AddRelationshipExtends(s2, competitor, e.name, "operates_in", map[], now);
          AddRelationshipAppendsOne(s1, user, e.name, "operates_in", map[], now);
          AddRelationshipAppendsOne(s2, competitor, e.name, "operates_in", map[], now);
          ExtendsTransitive(s1, s2, r);
          KeepsNodesTransitive(s1, s2, r);
        }
        ExtendsTransitive(s, s1, r);
        KeepsNodesTransitive(s, s1, r);
      }
  }

  lemma ProductLineExtends(s: Store, line: string, user: string, competitor: string, now: Timestamp)
    ensures Extends(s, ProductLine(s, line, user, competitor, now))
  {
    ExtendsReflexive(s);
    match ReadProduct(line, user, competitor)
    case None =>
    case Some(e) => AddProductExtends(s, e.name, e.owner, TextAttrs(e.attrs), now);
  }

  lemma PersonLineExtends(s: Store, line: string, user: string, competitor: string, now: Timestamp)
    ensures Extends(s, PersonLine(s, line, user, competitor, now))
  {
    ExtendsReflexive(s);
    match ReadPerson(line, user, competitor)
    case None =>
    case Some(e) => AddPersonExtends(s, e.name, e.owner, e.role, map[], now);
  }

  /** An arrow adds one edge exactly when both its endpoints are nodes; the
      edge runs from the source to the target, has the named type, and carries
      a description exactly when text follows the target.  No node is ever
      added. */
  lemma ApplyArrowEffect(s: Store, a: Arrow, now: Timestamp)
    ensures var r := ApplyArrow(s, a, now);
      && Extends(s, r) && r.graph.nodes == s.graph.nodes && r.graph.order == s.graph.order
      && (a.source !in s.graph.nodes || a.target !in s.graph.nodes ==> r == s)
      && (a.source in s.graph.nodes && a.target in s.graph.nodes ==>
            var e := r.graph.edges[|s.graph.edges|];
            && |r.graph.edges| == |s.graph.edges| + 1
            && e.src == a.source && e.tgt == a.target && MultiGraph.HasType(e.attrs, a.relType)
            && ("description" in e.attrs <==> a.description != []))
  {
    ExtendsReflexive(s);
    if a.source in s.graph.nodes && a.target in s.graph.nodes {
      AddRelationshipAppendsOne(s, a.source, a.target, a.relType, ArrowAttrs(a), now);
      AddRelationshipExtends(s, a.source, a.target, a.relType, ArrowAttrs(a), now);
      MultiGraph.AddEdgeBetweenNodes(s.graph, a.source, a.target,
        EdgeRecord(ArrowAttrs(a), a.relType, now));
    }
  }

  /** A RELATIONSHIPS line adds no node and keeps everything the state had. */
  lemma RelationshipLineEffect(s: Store, line: string, now: Timestamp)
    ensures var r := RelationshipLine(s, line, now);
      Extends(s, r) && r.graph.nodes == s.graph.nodes && r.graph.order == s.graph.order
  {
    ExtendsReflexive(s);
    match ReadArrow(line)
    case None =>
    case Some(a) => ApplyArrowEffect(s, a, now);
  }

  lemma {:induction false} CompanyLinesEffect(s: Store, lines: seq<string>, now: Timestamp, ev: Evaluator)
    ensures var r := CompanyLines(s, lines, now, ev);
      Extends(s, r) && KeepsNodes(s, r) && r.graph.edges == s.graph.edges
    decreases |lines|
  {
    ExtendsReflexive(s);
    if lines != [] {
      var s' := CompanyLine(s, lines[0], now, ev);
      CompanyLineEffect(s, lines[0], now, ev);
      CompanyLinesEffect(s', lines[1..], now, ev);
      ExtendsTransitive(s, s', CompanyLines(s, lines, now, ev));
      KeepsNodesTransitive(s, s', CompanyLines(s, lines, now, ev));
    }
  }

  lemma {:induction false} ProductLinesExtends(s: Store, lines: seq<string>, user: string, competitor: string, now: Timestamp)
    ensures Extends(s, ProductLines(s, lines, user, competitor, now))
    decreases |lines|
  {
    ExtendsReflexive(s);
    if lines != [] {
      var s' := ProductLine(s, lines[0], user, competitor, now);
      ProductLineExtends(s, lines[0], user, competitor, now);
      ProductLinesExtends(s', lines[1..], user, competitor, now);
      ExtendsTransitive(s, s', ProductLines(s, lines, user, competitor, now));
    }
  }

  lemma {:induction false} MarketLinesEffect(s: Store, lines: seq<string>, user: string, competitor: string, now: Timestamp, ev: Evaluator)
    ensures var r := MarketLines(s, lines, user, competitor, now, ev);
      Extends(s, r) && KeepsNodes(s, r)
    decreases |lines|
  {
    ExtendsReflexive(s);
    if lines != [] {
      var s' := MarketLine(s, lines[0], user, competitor, now, ev);
      MarketLineEffect(s, lines[0], user, competitor, now, ev);
      MarketLinesEffect(s', lines[1..], user, competitor, now, ev);
      ExtendsTransitive(s, s', MarketLines(s, lines, user, competitor, now, ev));
      KeepsNodesTransitive(s, s', MarketLines(s, lines, user, competitor, now, ev));
    }
  }

  lemma {:induction false} PersonLinesExtends(s: Store, lines: seq<string>, user: string, competitor: string, now: Timestamp)
    ensures Extends(s, PersonLines(s, lines, user, competitor, now))
    decreases |lines|
  {
    ExtendsReflexive(s);
    if lines != [] {
      var s' := PersonLine(s, lines[0], user, competitor, now);
      PersonLineExtends(s, lines[0], user, competitor, now);
      PersonLinesExtends(s', lines[1..], user, competitor, now);
      ExtendsTransitive(s, s', PersonLines(s, lines, user, competitor, now));
    }
  }

  /** The RELATIONSHIPS section adds edges only: the nodes stay exactly as they
      were. */
  lemma {:induction false} RelationshipLinesEffect(s: Store, lines: seq<string>, now: Timestamp)
    ensures var r := RelationshipLines(s, lines, now);
      Extends(s, r) && r.graph.nodes == s.graph.nodes && r.graph.order == s.graph.order
    decreases |lines|
  {
    ExtendsReflexive(s);
    if lines != [] {
      var s' := RelationshipLine(s, lines[0], now);
      RelationshipLineEffect(s, lines[0], now);
      RelationshipLinesEffect(s', lines[1..], now);
      ExtendsTransitive(s, s', RelationshipLines(s, lines, now));
    }
  }

  /** The parse only adds: every node, edge and history record of the old state
      is kept in place, and both anchors are nodes afterwards. */
  lemma ParseExtends(s: Store, text: string, user: string, competitor: string, now: Timestamp, ev: Evaluator)
    ensures var r := Parse(s, text, user, competitor, now, ev);
      Extends(s, r) && user in r.graph.nodes && competitor in r.graph.nodes
  {
    var s1 := Bootstrap(s, user, competitor, now);
    var sections := SplitSections(NormalizeLines(text));
    var s2 := CompanyLines(s1, SectionLines(sections, Companies), now, ev);
    var s3 := ProductLines(s2, SectionLines(sections, Products), user, competitor, now);
    var s4 := MarketLines(s3, SectionLines(sections, Markets), user, competitor, now, ev);
    var s5 := PersonLines(s4, SectionLines(sections, People), user, competitor, now);
    var r := RelationshipLines(s5, SectionLines(sections, Relationships), now);
    BootstrapEffect(s, user, competitor, now);
    CompanyLinesEffect(s1, SectionLines(sections, Companies), now, ev);
    ProductLinesExtends(s2, SectionLines(sections, Products), user, competitor, now);
    MarketLinesEffect(s3, SectionLines(sections, Markets), user, competitor, now, ev);
    PersonLinesExtends(s4, SectionLines(sections, People), user, competitor, now);
    RelationshipLinesEffect(s5, SectionLines(sections, Relationships), now);
    ExtendsTransitive(s, s1, s2);
    ExtendsTransitive(s, s2, s3);
    ExtendsTransitive(s, s3, s4);
    ExtendsTransitive(s, s4, s5);
    ExtendsTransitive(s, s5, r);
  }
}
