/**
 * The profile page: the generated avatar (initials and a background colour chosen from
 * the name), the defaults filled into a loaded profile, and its input handler.
 */
module Profile {
  import opened Wrappers
  import opened Text
  import opened Json
  import Forms

  /** The error the page shows when loading the profile throws. */
  const LoadFailed: string := "Failed to load profile"

  /** `name.trim().split(/\s+/)`. */
  function Words(name: string): (r: seq<string>)
    ensures |r| >= 1
  {
    SplitWs(Trim(name))
  }

  /**
   * The avatar initials, or None where `getAvatarUrl` throws: reading `[0]` of an empty
   * word yields `undefined`, and `undefined.toUpperCase()` is a TypeError.
   */
  function Initials(name: string): (r: Option<string>)
    ensures r.Some? ==> 1 <= |r.value| <= 2
  {
    InitialsOf(Words(name))
  }

  /**
   * The initials taken from the words of the name, as `getAvatarUrl` picks them: the first
   * two characters of a lone word, otherwise the first characters of the first and last words.
   */
  function InitialsOf(words: seq<string>): (r: Option<string>)
    requires |words| >= 1
    ensures r.Some? <==> words[0] != [] && words[|words| - 1] != []
    ensures r.Some? ==> 1 <= |r.value| <= 2 && r.value[0] == UpperChar(words[0][0])
    ensures r.Some? && |words| == 1 ==> |r.value| <= |words[0]| && (|r.value| == 2 <==> |words[0]| >= 2)
    ensures r.Some? && |words| == 1 ==> r.value == Upper(words[0][..|r.value|])
    ensures r.Some? && |words| > 1 ==> |r.value| == 2 && r.value[1] == UpperChar(words[|words| - 1][0])
  {
    if |words| == 1 then
      var w := words[0];
      if |w| >= 2 then Some(Upper(w[..2]))
      else if |w| == 1 then Some(Upper(w))
      else None
    else if words[0] == [] || words[|words| - 1] == [] then None
    else Some(Upper([words[0][0]]) + Upper([words[|words| - 1][0]]))
  }

  /** The eight background colours, as hexadecimal RGB. */
  const Colors: seq<string> := ["0D47A1", "1B5E20", "BF360C", "4A148C", "E65100", "006064", "3E2723", "263238"]

  /** `name.split('').reduce((acc, char) => acc + char.charCodeAt(0), 0)`. */
  function CodeSum(s: string): (n: nat)
    ensures s == [] ==> n == 0
    decreases |s|
  {
    if s == [] then 0 else CodeSum(s[..|s| - 1]) + s[|s| - 1] as int
  }

  /** The colour bucket: the code sum of the untrimmed name modulo the number of colours. */
  function ColourIndex(name: string): (k: nat)
    ensures k < |Colors|
  {
    CodeSum(name) % |Colors|
  }

  /** `getAvatarUrl(name)`; None where it throws. */
  function AvatarUrl(name: string): (r: Option<string>)
    ensures r.Some? <==> Initials(name).Some?
    ensures r.Some? ==> r.value != []
  {
    match Initials(name)
    case None => None
    case Some(initials) =>
      Some("https://ui-avatars.com/api/?name=" + initials + "&background=" + Colors[ColourIndex(name)]
        + "&color=fff&size=150&bold=true&font-size=0.5")
  }

  /** A non-blank trimmed name starts and ends with a word: its pieces are all non-empty. */
  lemma WordsNonEmpty(name: string)
    requires !Blank(name)
    ensures forall i :: 0 <= i < |Words(name)| ==> Words(name)[i] != []
  {
    var t := Trim(name);
    SplitWsPiecesNonEmpty(t);
  }

  /** Initials exist exactly for a name that is not empty or all white space. */
  lemma InitialsDefined(name: string)
    ensures Initials(name).Some? <==> !Blank(name)
  {
    if !Blank(name) {
      WordsNonEmpty(name);
    } else {
      assert Trim(name) == [];
      assert Words(name) == [[]];
    }
  }

  /** A one-word name gives its first two characters upper-cased, or its only one. */
  lemma InitialsOneWord(w: string)
    requires w != [] && NoSpace(w)
    ensures Initials(w) == Some(Upper(if |w| >= 2 then w[..2] else w))
  {
    TrimIdentity(w);
    SplitWsWord(w);
  }

  /** The first piece of such a name is its first word and there are at least two. */
  lemma SeveralWordsFirst(first: string, ws1: string, rest: string)
    requires first != [] && NoSpace(first)
    requires ws1 != [] && Blank(ws1)
    ensures |SplitWs(first + ws1 + rest)| >= 2 && SplitWs(first + ws1 + rest)[0] == first
  {
    assert !IsSpace(first[|first| - 1]);
    SplitWsConcat(first, ws1, rest);
    SplitWsWord(first);
  }

  /**
   * Three or more words give the first letter of the first word and of the last,
   * upper-cased; the words between them and the white space around them do not matter.
   */
  lemma InitialsSeveralWords(first: string, ws1: string, middle: string, ws2: string, last: string)
    requires first != [] && NoSpace(first) && last != [] && NoSpace(last)
    requires ws1 != [] && Blank(ws1) && ws2 != [] && Blank(ws2)
    ensures Initials(first + ws1 + middle + ws2 + last) == Some(Upper([first[0]]) + Upper([last[0]]))
  {
    var head := first + ws1 + middle;
    var name := head + ws2 + last;
    var rest := middle + ws2 + last;
    assert name == first + ws1 + rest;
    assert name[0] == first[0] && !IsSpace(first[0]);
    assert name[|name| - 1] == last[|last| - 1] && !IsSpace(last[|last| - 1]);
    TrimIdentity(name);
    SeveralWordsFirst(first, ws1, rest);
    SplitWsLastWord(head, ws2, last);
    var words := Words(name);
    assert words == SplitWs(name);
    assert |words| >= 2 && words[0] == first && words[|words| - 1] == last;
  }

  /** Two words, however much white space separates them, give the first letter of each, upper-cased. */
  lemma InitialsTwoWords(first: string, ws: string, last: string)
    requires first != [] && NoSpace(first) && last != [] && NoSpace(last)
    requires ws != [] && Blank(ws)
    ensures Initials(first + ws + last) == Some(Upper([first[0]]) + Upper([last[0]]))
  {
    var name := first + ws + last;
    assert name[0] == first[0] && !IsSpace(first[0]);
    assert name[|name| - 1] == last[|last| - 1] && !IsSpace(last[|last| - 1]);
    TrimIdentity(name);
    SeveralWordsFirst(first, ws, last);
    SplitWsLastWord(first, ws, last);
    var words := Words(name);
    assert words == SplitWs(name);
    assert |words| >= 2 && words[0] == first && words[|words| - 1] == last;
  }

  /** White space around the name changes no initial. */
  lemma InitialsIgnorePadding(ws1: string, name: string, ws2: string)
    requires Blank(ws1) && Blank(ws2)
    ensures Initials(ws1 + name + ws2) == Initials(name)
  {
    TrimPadding(ws1, name, ws2);
    assert Words(ws1 + name + ws2) == Words(name);
  }

  /** The code sum of a concatenation is the sum of the parts. */
  lemma {:induction false} CodeSumAppend(a: string, b: string)
    ensures CodeSum(a + b) == CodeSum(a) + CodeSum(b)
    decreases |b|
  {
    if b == [] {
      assert a + b == a;
    } else {
      var b' := b[..|b| - 1];
      assert (a + b)[..|a + b| - 1] == a + b';
      CodeSumAppend(a, b');
    }
  }

  /** Swapping two parts of the name keeps its colour: "John Doe" and "Doe John" match. */
  lemma ColourIgnoresOrder(a: string, b: string)
    ensures ColourIndex(a + b) == ColourIndex(b + a)
  {
    CodeSumAppend(a, b);
    CodeSumAppend(b, a);
  }

  /** A space (code 32, a multiple of 8) added to the untrimmed name keeps its colour. */
  lemma ColourIgnoresSpaceCharacter(name: string)
    ensures ColourIndex(name + " ") == ColourIndex(name)
  {
    CodeSumAppend(name, " ");
    assert CodeSum(" ") == 32;
  }

  /**
   * The initials half of the contrast drawn by TabChangesColour: "Ann" and "Ann\t" share
   * their initials, because the tab is trimmed away (an instance of InitialsIgnorePadding).
   */
  lemma TabKeepsInitials()
    ensures Initials("Ann\t") == Initials("Ann")
  {
    var tab := "\t";
    assert IsSpace(tab[0]);
    InitialsIgnorePadding([], "Ann", tab);
    assert [] + "Ann" + tab == "Ann\t";
  }

  /**
   * The colour comes from the untrimmed name while the initials come from the trimmed one:
   * a trailing tab (code 9) changes the colour of "Ann" from bucket 5 to bucket 6.
   */
  lemma TabChangesColour()
    ensures ColourIndex("Ann") == 5 && ColourIndex("Ann\t") == 6
  {
    assert "Ann"[..2] == "An" && "An"[..1] == "A" && "A"[..0] == "";
    assert CodeSum("A") == 65;
    assert CodeSum("An") == 175;
    assert CodeSum("Ann") == 285;
    assert "Ann\t"[..3] == "Ann";
    assert CodeSum("Ann\t") == 294;
  }

  /** The page's starting profile. */
  function InitialUser(): (u: Record)
    ensures u.Keys == {"name", "email", "phone", "address", "company", "profileImage"}
    ensures forall k :: k in u ==> Forms.Unfilled(u[k])
    ensures u["address"].Obj? && u["address"].fields.Keys == {"street", "city", "state", "country", "zipCode"}
    ensures u["company"].Obj? && u["company"].fields.Keys == {"name", "position"}
  {
    map["name" := Str(""), "email" := Str(""), "phone" := Str(""),
        "address" := Forms.DefaultAddress(), "company" := Forms.DefaultCompany(),
        "profileImage" := Str("")]
  }

  /**
   * The profile state after `fetchProfile` receives `data`: a falsy body changes nothing;
   * otherwise its fields, with a falsy address or company replaced by the empty one and a
   * falsy `profileImage` by the generated avatar. Generating the avatar throws for a name
   * that is missing, not a string, or blank, and the page then reports `LoadFailed`.
   */
  function FetchProfile(current: Record, data: Value): (r: Result<Record, string>)
    ensures r.Failure? ==> r.error == LoadFailed
    ensures !Truthy(data) ==> r == Success(current)
    ensures Truthy(data) && r.Success? ==>
      Has(r.value, "address") && Has(r.value, "company") && Has(r.value, "profileImage")
  {
    if !Truthy(data) then Success(current)
    else
      var filled := WithDefaults(Spread(Some(data)));
      if Has(filled, "profileImage") then Success(filled)
      else match Get(filled, "name")
        case Some(Str(n)) =>
          (match AvatarUrl(n)
           case None => Failure(LoadFailed)
           case Some(url) => Success(filled["profileImage" := Str(url)]))
        case _ => Failure(LoadFailed)
  }

  /** The body's fields with a falsy address or company replaced by the empty one. */
  function WithDefaults(base: Record): (r: Record)
    ensures Has(r, "address") && Has(r, "company")
    ensures r.Keys == base.Keys + {"address", "company"}
    ensures forall k :: k in base && k != "address" && k != "company" ==> r[k] == base[k]
    ensures Has(base, "address") ==> r["address"] == base["address"]
    ensures Has(base, "company") ==> r["company"] == base["company"]
    ensures !Has(base, "address") ==> r["address"] == Forms.DefaultAddress()
    ensures !Has(base, "company") ==> r["company"] == Forms.DefaultCompany()
  {
    base["address" := Or(base, "address", Forms.DefaultAddress())]
        ["company" := Or(base, "company", Forms.DefaultCompany())]
  }

  /** Fields the body supplies are kept, except that falsy ones among the three defaulted are filled in. */
  lemma FetchProfileKeeps(current: Record, m: Record)
    requires var r := FetchProfile(current, Obj(m)); r.Success?
    ensures var u := FetchProfile(current, Obj(m)).value;
      && (forall k :: k in m && k != "address" && k != "company" && k != "profileImage" ==> k in u && u[k] == m[k])
      && (Has(m, "address") ==> u["address"] == m["address"])
      && (Has(m, "company") ==> u["company"] == m["company"])
      && (Has(m, "profileImage") ==> u["profileImage"] == m["profileImage"])
  {
    assert Spread(Some(Obj(m))) == m;
  }

  /** A missing or falsy address or company becomes the empty one. */
  lemma FetchProfileDefaults(current: Record, m: Record)
    requires var r := FetchProfile(current, Obj(m)); r.Success?
    ensures var u := FetchProfile(current, Obj(m)).value;
      && (!Has(m, "address") ==> u["address"] == Forms.DefaultAddress())
      && (!Has(m, "company") ==> u["company"] == Forms.DefaultCompany())
  {
    assert Spread(Some(Obj(m))) == m;
  }

  /** Without a profile image, a non-blank name gets its generated avatar. */
  lemma FetchProfileAvatar(current: Record, m: Record, name: string)
    requires !Has(m, "profileImage") && "name" in m && m["name"] == Str(name) && !Blank(name)
    ensures var r := FetchProfile(current, Obj(m));
      && r.Success? && AvatarUrl(name).Some?
      && "profileImage" in r.value && r.value["profileImage"] == Str(AvatarUrl(name).value)
  {
    InitialsDefined(name);
    var url := AvatarUrl(name);
    assert url.Some?;
    assert Spread(Some(Obj(m))) == m;
    var filled := WithDefaults(m);
    assert !Has(filled, "profileImage");
    assert Get(filled, "name") == Some(Str(name));
    assert FetchProfile(current, Obj(m)) == Success(filled["profileImage" := Str(url.value)]);
  }

  /** Without a profile image, a blank or missing name makes the load fail. */
  lemma FetchProfileBlankName(current: Record, m: Record)
    requires !Has(m, "profileImage")
    requires "name" !in m || !m["name"].Str? || Blank(m["name"].s)
    ensures FetchProfile(current, Obj(m)) == Failure(LoadFailed)
  {
    assert Spread(Some(Obj(m))) == m;
    var filled := WithDefaults(m);
    assert !Has(filled, "profileImage");
    assert Get(filled, "name") == Get(m, "name");
    if "name" in m && m["name"].Str? {
      InitialsDefined(m["name"].s);
      assert AvatarUrl(m["name"].s) == None;
    }
  }
}
