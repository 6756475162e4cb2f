/** The document manager: registered processors, and a dictionary from normalised
    file suffix to the processor that handles it. The first processor to declare a
    suffix keeps it. What a processor does with a file is a parameter of `Process`. */
module DocumentsManager {
  import opened Wrappers
  import opened PyText
  import opened PyPath
  import opened OrderedDicts
  import opened Sorting
  import opened DocumentsModels

  /** A processor: its identity (Python routes by object identity), its name, and the
      suffixes it declares. */
  datatype Processor = Processor(id: nat, name: string, supportedSuffixes: seq<string>)

  /** An exception escaping `process`; `cause` is the exception a wrapped error comes `from`. */
  datatype Raised =
    | DocumentProcessingError(message: string, cause: Option<Raised>)
    | OtherException(kind: string, message: string)

  // ---------- suffixes ----------

  /** No upper-case letter, and a leading dot. */
  predicate IsNormalSuffix(s: string) {
    s != [] && s[0] == '.' && forall i :: 0 <= i < |s| ==> !('A' <= s[i] <= 'Z')
  }

  /** How `register` normalises a declared suffix: lower-case it, then add a dot if it lacks one. */
  function Normalize(s: string): (r: string)
    ensures IsNormalSuffix(r)
    ensures IsNormalSuffix(s) ==> r == s
  {
    var l := Lower(s);
    assert IsNormalSuffix(s) ==> l == s;
    if StartsWith(l, ".") then
      assert l[0] == '.';
      l
    else
      var r := "." + l;
      assert forall i :: 1 <= i < |r| ==> r[i] == l[i - 1];
      r
  }

  /** `d.setdefault(k, p)`: only a missing key is assigned. */
  function SetDefault(d: ODict<string, Processor>, k: string, p: Processor): (r: ODict<string, Processor>)
    requires WellFormed(d)
    ensures WellFormed(r)
  {
    if k in d.values then d else Assign(d, k, p)
  }

  /** The dictionary after the `setdefault` of every declared suffix of `ss`, in order. */
  function SetDefaults(d: ODict<string, Processor>, ss: seq<string>, p: Processor): (r: ODict<string, Processor>)
    requires WellFormed(d)
    ensures WellFormed(r)
    decreases |ss|
  {
    if ss == [] then d else SetDefault(SetDefaults(d, ss[..|ss| - 1], p), Normalize(ss[|ss| - 1]), p)
  }

  /** Registration never removes or overrides a mapping, and keeps the insertion order. */
  lemma {:induction false} SetDefaultsKeeps(d: ODict<string, Processor>, ss: seq<string>, p: Processor)
    requires WellFormed(d)
    ensures forall k :: k in d.values ==> k in SetDefaults(d, ss, p).values && SetDefaults(d, ss, p).values[k] == d.values[k]
    ensures d.order <= SetDefaults(d, ss, p).order
    decreases |ss|
  {
    if ss != [] {
      SetDefaultsKeeps(d, ss[..|ss| - 1], p);
    }
  }

  /** Every declared suffix ends up mapped. */
  lemma {:induction false} SetDefaultsCovers(d: ODict<string, Processor>, ss: seq<string>, p: Processor)
    requires WellFormed(d)
    ensures forall i :: 0 <= i < |ss| ==> Normalize(ss[i]) in SetDefaults(d, ss, p).values
    decreases |ss|
  {
    if ss != [] {
      var init := ss[..|ss| - 1];
      SetDefaultsCovers(d, init, p);
      var r := SetDefaults(d, ss, p);
      forall i | 0 <= i < |ss| ensures Normalize(ss[i]) in r.values {
        if i < |ss| - 1 {
          assert ss[i] == init[i];
        }
      }
    }
  }

  /** The newly mapped suffixes go to `p`. */
  lemma {:induction false} SetDefaultsNewToP(d: ODict<string, Processor>, ss: seq<string>, p: Processor)
    requires WellFormed(d)
    ensures forall k :: k in SetDefaults(d, ss, p).values && k !in d.values ==> SetDefaults(d, ss, p).values[k] == p
    decreases |ss|
  {
    if ss != [] {
      SetDefaultsNewToP(d, ss[..|ss| - 1], p);
    }
  }

  /** Nothing but the declared suffixes is added. */
  lemma {:induction false} SetDefaultsOnlyDeclared(d: ODict<string, Processor>, ss: seq<string>, p: Processor)
    requires WellFormed(d)
    ensures forall k :: k in SetDefaults(d, ss, p).values ==> k in d.values || exists i :: 0 <= i < |ss| && k == Normalize(ss[i])
    decreases |ss|
  {
    if ss != [] {
      var init := ss[..|ss| - 1];
      SetDefaultsOnlyDeclared(d, init, p);
      forall k | k in SetDefaults(d, ss, p).values && k !in d.values
        ensures exists i :: 0 <= i < |ss| && k == Normalize(ss[i])
      {
        if k != Normalize(ss[|ss| - 1]) {
          var i :| 0 <= i < |init| && k == Normalize(init[i]);
          assert ss[i] == init[i];
        }
      }
    }
  }

  // ---------- the manager ----------

  class DocumentManager {
    var processors: seq<Processor>
    var suffixMap: ODict<string, Processor>

    /** Every key is a normalised suffix, routed to a registered processor. */
    ghost predicate Valid()
      reads this
    {
      && WellFormed(suffixMap)
      && forall k :: k in suffixMap.values ==> IsNormalSuffix(k) && suffixMap.values[k] in processors
    }

    constructor ()
      ensures Valid() && processors == [] && suffixMap == Empty()
    {
      processors := [];
      suffixMap := Empty();
    }

    /** `register`: the processor is appended, then each declared suffix is normalised and
        `setdefault` into the map. */
    method Register(p: Processor)
      requires Valid()
      modifies this
      ensures Valid()
      ensures processors == old(processors) + [p]
      ensures suffixMap == SetDefaults(old(suffixMap), p.supportedSuffixes, p)
    {
      processors := processors + [p];
      var sfx := p.supportedSuffixes;
      for i := 0 to |sfx|
        invariant WellFormed(suffixMap) && processors == old(processors) + [p]
        invariant forall k :: k in suffixMap.values ==> IsNormalSuffix(k) && suffixMap.values[k] in processors
        invariant suffixMap == SetDefaults(old(suffixMap), sfx[..i], p)
      {
        assert sfx[..i + 1][..i] == sfx[..i];
        var s := Normalize(sfx[i]);
        if s !in suffixMap.values {
          suffixMap := Assign(suffixMap, s, p);
        }
      }
      assert sfx[..|sfx|] == sfx;
    }

    /** `get_processor_for`: the processor of the lower-cased suffix of the file, if any. */
    function GetProcessorFor(path: string): (r: Option<Processor>)
      reads this
      requires Valid()
      ensures r.Some? <==> Lower(Suffix(path)) in suffixMap.values
      ensures r.Some? ==> r.value == suffixMap.values[Lower(Suffix(path))] && r.value in processors
    {
      Get(suffixMap, Lower(Suffix(path)))
    }

    /** `process`: no processor raises; a `DocumentProcessingError` of the processor passes
        through as it is; any other exception is wrapped with its message. `run(p, path)` is
        what processor `p` does with the file. */
    function Process(path: string, run: (Processor, string) -> Result<DocumentContent, Raised>): (r: Result<DocumentContent, Raised>)
      reads this
      requires Valid()
      ensures r.Failure? ==> r.error.DocumentProcessingError?
      ensures GetProcessorFor(path).None? ==>
                r == Failure(DocumentProcessingError("No processor registered for: " + Suffix(path), None))
      ensures GetProcessorFor(path).Some? ==>
                var out := run(GetProcessorFor(path).value, path);
                && (out.Success? ==> r == out)
                && (out.Failure? && out.error.DocumentProcessingError? ==> r == out)
                && (out.Failure? && out.error.OtherException? ==>
                      r == Failure(DocumentProcessingError(out.error.message, Some(out.error))))
    {
      match GetProcessorFor(path)
      case None => Failure(DocumentProcessingError("No processor registered for: " + Suffix(path), None))
      case Some(proc) =>
        match run(proc, path)
        case Success(c) => Success(c)
        case Failure(e) =>
          if e.DocumentProcessingError? then Failure(e)
          else Failure(DocumentProcessingError(e.message, Some(e)))
    }

    /** `registered_suffixes`: the keys, sorted, each once. */
    function RegisteredSuffixes(): (r: seq<string>)
      reads this
      requires Valid()
      ensures forall k :: k in r <==> k in suffixMap.values
      ensures forall i, j :: 0 <= i < j < |r| ==> StrLess(r[i], r[j])
    {
      var r := SortBy(suffixMap.order, StrBefore);
      SortedKeys(suffixMap.order);
      r
    }
  }

  // ---------- sorting the keys ----------

  /** Sorting distinct strings puts them in strictly increasing order. */
  lemma SortedKeys(ks: seq<string>)
    requires Distinct(ks)
    ensures forall k :: k in SortBy(ks, StrBefore) <==> k in ks
    ensures forall i, j :: 0 <= i < j < |SortBy(ks, StrBefore)| ==> StrLess(SortBy(ks, StrBefore)[i], SortBy(ks, StrBefore)[j])
  {
    var r := SortBy(ks, StrBefore);
    StrBeforeOrder();
    SortByOrdered(ks, StrBefore);
    assert forall k :: k in r <==> k in multiset(r);
    assert forall k :: k in ks <==> k in multiset(ks);
    DistinctMultiset(ks);
    forall i, j | 0 <= i < j < |r| ensures StrLess(r[i], r[j]) {
      assert !StrBefore(r[j], r[i]);
      OccursTwice(r, i, j);
      assert r[i] != r[j];
      StrLessTotal(r[i], r[j]);
    }
  }

  // ---------- the example of the tests ----------

  /** A name without a slash is its own name. */
  lemma NameOfName(n: string)
    requires '/' !in n
    ensures Name(n) == n
  {
    assert RFind(n, '/') == -1;
  }

  /** A file name `stem.ext`, with no slash and no dot in `ext`, has the suffix `.ext`. */
  lemma SuffixOf(stem: string, ext: string)
    requires stem != [] && ext != [] && '/' !in stem && '.' !in ext && '/' !in ext
    ensures Suffix(stem + "." + ext) == "." + ext
  {
    NoSlash(stem, ext);
    RFindAfter(stem, '.', ext);
    SuffixTail(stem + "." + ext, stem, ext);
  }

  lemma SuffixTail(n: string, stem: string, ext: string)
    requires n == stem + "." + ext
    requires stem != [] && ext != [] && '/' !in n && RFind(n, '.') == |stem|
    ensures Suffix(n) == "." + ext
  {
    SuffixAt(n, |stem|);
    SliceAfterStem(stem, ext);
  }

  lemma SliceAfterStem(stem: string, ext: string)
    ensures (stem + "." + ext)[|stem|..] == "." + ext
  {
  }

  /** A name whose last dot is at `i`, neither first nor last, has the suffix from `i` on. */
  lemma SuffixAt(n: string, i: int)
    requires '/' !in n && RFind(n, '.') == i && 0 < i < |n| - 1
    ensures Suffix(n) == n[i..]
  {
    NameOfName(n);
  }

  lemma NoSlash(stem: string, ext: string)
    requires '/' !in stem && '/' !in ext
    ensures '/' !in stem + "." + ext
  {
    var n := stem + "." + ext;
    forall j | 0 <= j < |n| ensures n[j] != '/' {
      if j < |stem| {
        assert n[j] == stem[j];
      } else if j > |stem| {
        assert n[j] == ext[j - |stem| - 1];
      }
    }
  }

  /** The suffixes of the example are normalised already. */
  lemma SampleSuffixes()
    ensures IsNormalSuffix(".txt") && IsNormalSuffix(".md") && IsNormalSuffix(".rst")
  {
  }

  /** `note.MD` has the suffix `.MD`, which lower-cases to `.md`. (The names are written as
      concatenations, which keeps the verifier from evaluating the path functions on literals.) */
  lemma NoteSuffix()
    ensures Lower(Suffix("note" + "." + "MD")) == ".md"
  {
    SuffixOf("note", "MD");
    LowerMd();
  }

  lemma LowerMd()
    ensures Lower("." + "MD") == ".md"
  {
    assert "." + "MD" == ".MD";
    assert ".MD"[1..] == "MD" && "MD"[1..] == "D";
  }

  /** `file.txt` has the suffix `.txt`. */
  lemma FileSuffix()
    ensures Lower(Suffix("file" + "." + "txt")) == ".txt"
  {
    SuffixOf("file", "txt");
    LowerTxt();
  }

  lemma LowerTxt()
    ensures Lower("." + "txt") == ".txt"
  {
    assert "." + "txt" == ".txt";
    assert ".txt"[1..] == "txt" && "txt"[1..] == "xt" && "xt"[1..] == "t";
  }

  /** Registering `[a, b]` for `p1` and then `[b, c]` for `p2`, all normalised and distinct:
      `b` stays with `p1`. */
  lemma TwoRegistrations(a: string, b: string, c: string, p1: Processor, p2: Processor)
    requires IsNormalSuffix(a) && IsNormalSuffix(b) && IsNormalSuffix(c) && a != b && b != c && a != c
    ensures SetDefaults(SetDefaults(Empty(), [a, b], p1), [b, c], p2).values == map[a := p1, b := p1, c := p2]
  {
    var d0: ODict<string, Processor> := Empty();
    assert [a, b][..1] == [a] && [a][..0] == [];
    var d1 := SetDefaults(d0, [a, b], p1);
    assert SetDefaults(d0, [a], p1).values == map[a := p1];
    assert d1.values == map[a := p1, b := p1];
    assert [b, c][..1] == [b] && [b][..0] == [];
    assert SetDefaults(d1, [b], p2).values == d1.values;
  }

  /** Registers `p1` declaring `[a, b]`, then `p2` declaring `[b, c]`: `b` stays with `p1`. */
  method RegisterTwo(p1: Processor, p2: Processor, a: string, b: string, c: string) returns (mgr: DocumentManager)
    requires IsNormalSuffix(a) && IsNormalSuffix(b) && IsNormalSuffix(c) && a != b && b != c && a != c
    requires p1.supportedSuffixes == [a, b] && p2.supportedSuffixes == [b, c]
    ensures fresh(mgr) && mgr.Valid() && mgr.processors == [p1, p2]
    ensures mgr.suffixMap.values == map[a := p1, b := p1, c := p2]
  {
    mgr := new DocumentManager();
    mgr.Register(p1);
    mgr.Register(p2);
    TwoRegistrations(a, b, c, p1, p2);
  }

  /** Two processors sharing suffix `b`: the first one registered keeps it, and a file whose
      suffix lower-cases to `b` goes to it. */
  method SharedSuffixFor(p1: Processor, p2: Processor, a: string, b: string, c: string, x: string)
    requires IsNormalSuffix(a) && IsNormalSuffix(b) && IsNormalSuffix(c) && a != b && b != c && a != c
    requires p1.supportedSuffixes == [a, b] && p2.supportedSuffixes == [b, c]
    requires Lower(Suffix(x)) == b
  {
    var mgr := RegisterTwo(p1, p2, a, b, c);
    var registered := mgr.RegisteredSuffixes();
    assert b in registered;
    var px := mgr.GetProcessorFor(x);
    assert px == Some(p1);
  }

  /** A suffix only the first processor declares goes to it. */
  method OwnSuffixFor(p1: Processor, p2: Processor, a: string, b: string, c: string, y: string)
    requires IsNormalSuffix(a) && IsNormalSuffix(b) && IsNormalSuffix(c) && a != b && b != c && a != c
    requires p1.supportedSuffixes == [a, b] && p2.supportedSuffixes == [b, c]
    requires Lower(Suffix(y)) == a
  {
    var mgr := RegisterTwo(p1, p2, a, b, c);
    var py := mgr.GetProcessorFor(y);
    assert py == Some(p1);
  }

  /** The processors of the tests: `.txt` and `.md`, then `.md` and `.rst`; `note.MD` and
      `file.txt` both go to the first. */
  method FirstRegistrationWins(p1: Processor, p2: Processor)
    requires p1.supportedSuffixes == [".txt", ".md"] && p2.supportedSuffixes == [".md", ".rst"]
  {
    SampleSuffixes();
    NoteSuffix();
    FileSuffix();
    SharedSuffixFor(p1, p2, ".txt", ".md", ".rst", "note" + "." + "MD");
    OwnSuffixFor(p1, p2, ".txt", ".md", ".rst", "file" + "." + "txt");
  }

  /** An unknown suffix is refused with the suffix in the message. */
  method UnknownSuffixRaises(run: (Processor, string) -> Result<DocumentContent, Raised>)
  {
    var mgr := new DocumentManager();
    var r := mgr.Process("unknown.xyz", run);
    assert r.Failure? && r.error.DocumentProcessingError?;
  }
}
