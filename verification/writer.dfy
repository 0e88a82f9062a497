/** The writer (src/Writer.js): a directory and a name prefix for the files
    and subdirectories created within it. The directory is held as its list
    of path segments; creating it on disk is not modelled. */
module Writer {
  import opened Wrappers

  /** `new Writer( dir, prefix )`: `dir` is the base directory followed by
      one segment per `child` call. */
  datatype Writer = Writer(dir: seq<string>, prefix: string)

  /** `new Writer( dir )`. */
  function Open(base: string): (w: Writer)
    ensures w.dir == [base] && w.prefix == ""
  {
    Writer([base], "")
  }

  /** A freshly opened writer puts a file named `name` directly in its
      directory, and accepts exactly the valid names. */
  lemma OpenGetPath(base: string, name: string)
    ensures GetPath(Open(base), name).Success? <==> ValidName(name)
    ensures GetPath(Open(base), name).Success? ==> GetPath(Open(base), name).value == [base, name]
  {
    assert Open(base).prefix + name == name;
  }

  /** The characters `/[/?<>\\:*|":]/` looks for. */
  predicate IsForbidden(c: char) {
    c == '/' || c == '?' || c == '<' || c == '>' || c == '\\' || c == ':' || c == '*' || c == '|' || c == '"'
  }

  /** Letters, digits and `-` make a valid name. */
  lemma PlainNameIsValid(name: string)
    requires |name| > 0
    requires forall i | 0 <= i < |name| :: 'a' <= name[i] <= 'z' || '0' <= name[i] <= '9' || name[i] == '-'
    ensures ValidName(name)
  {
    assert name[0] != '.';
  }

  /** `/^\.+$/`: one or more dots and nothing else. */
  predicate OnlyDots(name: string) {
    |name| > 0 && forall i | 0 <= i < |name| :: name[i] == '.'
  }

  /** A name that may be used for a file: not empty, not only dots, and
      free of characters that traverse or are reserved on some system. */
  predicate ValidName(name: string) {
    && name != ""
    && !OnlyDots(name)
    && forall i | 0 <= i < |name| :: !IsForbidden(name[i])
  }

  /** `validateName( name )`: throws `Invalid file name: "<name>"`. */
  function ValidateName(name: string): (r: Outcome<string>)
    ensures r.Pass? <==> ValidName(name)
    ensures r.Fail? ==> r.error == "Invalid file name: \"" + name + "\""
  {
    var bad := name == "" || OnlyDots(name) || exists i | 0 <= i < |name| :: IsForbidden(name[i]);
    if bad then Fail("Invalid file name: \"" + name + "\"") else Pass
  }

  /** `writer.getPath( name )`: the prefixed name, validated as a whole, as
      one more segment of the directory. */
  function GetPath(w: Writer, name: string): (r: Result<seq<string>, string>)
    ensures r.Success? <==> ValidName(w.prefix + name)
    ensures r.Success? ==> r.value == w.dir + [w.prefix + name]
  {
    var segment := w.prefix + name;
    match ValidateName(segment)
    case Fail(e) => Failure(e)
    case Pass => Success(w.dir + [segment])
  }

  /** `writer.prefix( p )`: same directory, longer prefix. */
  function Prefix(w: Writer, p: string): (r: Writer)
    ensures r.dir == w.dir
    ensures |r.prefix| == |w.prefix| + |p| && r.prefix[..|w.prefix|] == w.prefix
    ensures r.prefix[|w.prefix|..] == p
  {
    Writer(w.dir, w.prefix + p)
  }

  /** `writer.child( name )`: a writer for the subdirectory `getPath( name )`,
      with no prefix. */
  function Child(w: Writer, name: string): (r: Result<Writer, string>)
    ensures r.Success? <==> ValidName(w.prefix + name)
    ensures r.Success? ==> r.value.prefix == "" && |r.value.dir| == |w.dir| + 1
    ensures r.Success? ==> r.value.dir[..|w.dir|] == w.dir && r.value.dir[|w.dir|] == w.prefix + name
  {
    var path :- GetPath(w, name);
    Success(Writer(path, ""))
  }

  // ---- properties ----

  /** Prefixes accumulate: `prefix( a ).prefix( b )` is `prefix( a + b )`. */
  lemma PrefixesCompose(w: Writer, a: string, b: string)
    ensures Prefix(Prefix(w, a), b) == Prefix(w, a + b)
  {
    assert (w.prefix + a) + b == w.prefix + (a + b);
  }

  /** Every segment a writer adds below its base is a valid name. */
  predicate SegmentsValid(w: Writer) {
    forall i | 1 <= i < |w.dir| :: ValidName(w.dir[i])
  }

  /** `child` keeps every added segment valid, and `prefix` changes none. */
  lemma ChildKeepsSegmentsValid(w: Writer, name: string)
    requires SegmentsValid(w)
    ensures Child(w, name).Success? ==> SegmentsValid(Child(w, name).value)
    ensures SegmentsValid(Prefix(w, name))
  {
  }

  /** It is the prefixed name that is validated: a valid name can be
      refused because of the prefix, and the empty name is accepted after a
      prefix. */
  lemma PrefixIsValidatedWithName(w: Writer)
    requires w.prefix == ""
    ensures Child(Prefix(w, "aa/"), "bb").Failure?
    ensures Child(Prefix(w, "aa-"), "") == Success(Writer(w.dir + ["aa-"], ""))
  {
    assert Prefix(w, "aa/").prefix + "bb" == "aa/bb" && "aa/bb"[2] == '/';
    assert Prefix(w, "aa-").prefix + "" == "aa-";
    PlainNameIsValid("aa-");
  }

  /** Rejected names: the empty string, a traversing name, only dots. */
  lemma RejectedNames(w: Writer)
    requires w.prefix == ""
    ensures Child(w, "").Failure?
    ensures Child(w, "aa/bb").Failure?
    ensures Child(w, "..").Failure?
    ensures ValidateName("aa/bb") == Fail("Invalid file name: \"aa/bb\"")
  {
    assert "aa/bb"[2] == '/';
    assert w.prefix + "aa/bb" == "aa/bb";
    assert "Invalid file name: \"" + "aa/bb" + "\"" == "Invalid file name: \"aa/bb\"";
    assert w.prefix + ".." == "..";
  }

  /** A child of a writer without prefix appends the name as it is. */
  lemma ChildOfUnprefixed(w: Writer, name: string)
    requires w.prefix == "" && ValidName(name)
    ensures Child(w, name) == Success(Writer(w.dir + [name], ""))
  {
    assert w.prefix + name == name;
  }

  /** Three chained children add three segments. */
  lemma ChainedChildren(base: string)
    ensures var aa := Child(Open(base), "aa");
      && aa.Success? && Child(aa.value, "bb").Success?
      && Child(Child(aa.value, "bb").value, "cc") == Success(Writer([base, "aa", "bb", "cc"], ""))
  {
    PlainNameIsValid("aa");
    PlainNameIsValid("bb");
    PlainNameIsValid("cc");
    ChildOfUnprefixed(Open(base), "aa");
    ChildOfUnprefixed(Writer([base, "aa"], ""), "bb");
    ChildOfUnprefixed(Writer([base, "aa", "bb"], ""), "cc");
    assert [base] + ["aa"] == [base, "aa"];
    assert [base, "aa"] + ["bb"] == [base, "aa", "bb"];
    assert [base, "aa", "bb"] + ["cc"] == [base, "aa", "bb", "cc"];
  }

  /** A prefixed child gets the prefix in its name. */
  lemma PrefixedChild(base: string)
    ensures Child(Prefix(Open(base), "aa-"), "bb") == Success(Writer([base, "aa-bb"], ""))
  {
    PlainNameIsValid("aa-bb");
    var w := Prefix(Open(base), "aa-");
    assert w.prefix + "bb" == "aa-bb";
    assert GetPath(w, "bb") == Success([base] + ["aa-bb"]);
    assert [base] + ["aa-bb"] == [base, "aa-bb"];
  }
}
