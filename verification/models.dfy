/**
 * The catalogue's record types and their string representations: an
 * author's full name and the `__str__` of tags, publishers, authors and notes.
 */
module Models {
  import opened Wrappers

  /** A tag, optionally owned by the user who curates it. */
  datatype Tag = Tag(owner: Option<nat>, title: string)

  datatype Publisher = Publisher(title: string)

  /** An author: the last name is required, first and middle names are nullable. */
  datatype Author = Author(firstName: Option<string>, middleName: Option<string>, lastName: string)

  /** A book, identified by its primary key; only the columns the views read are kept. */
  datatype Book = Book(id: nat, owner: nat, title: string)

  /** A user's free-text note on a book. */
  datatype Note = Note(owner: nat, book: nat, text: string)

  /** Python truthiness of a nullable text column: present and not empty. */
  predicate Given(part: Option<string>) {
    part.Some? && part.value != ""
  }

  /** What an optional name part adds to the full name: a space and the part, or nothing. */
  function Suffix(part: Option<string>): string {
    if Given(part) then " " + part.value else ""
  }

  /** Length of what `Suffix(part)` adds. */
  function SuffixLength(part: Option<string>): nat {
    if Given(part) then 1 + |part.value| else 0
  }

  /**
   * `Author.full_name`: the last name, then the first name when it is given,
   * then the middle name when it is given, each after one space.
   */
  function FullName(a: Author): (name: string)
    ensures |name| == |a.lastName| + SuffixLength(a.firstName) + SuffixLength(a.middleName)
    ensures name[..|a.lastName|] == a.lastName
  {
    var name := a.lastName;
    var name := name + Suffix(a.firstName);
    name + Suffix(a.middleName)
  }

  /** Space-joins a sequence of words. */
  function Join(words: seq<string>): (s: string)
    ensures |words| == 1 ==> s == words[0]
  {
    if |words| == 0 then ""
    else if |words| == 1 then words[0]
    else Join(words[..|words| - 1]) + " " + words[|words| - 1]
  }

  /** The name parts that are present, in the fixed order last, first, middle. */
  function PresentParts(a: Author): (parts: seq<string>)
    ensures |parts| >= 1 && parts[0] == a.lastName
  {
    [a.lastName]
    + (if Given(a.firstName) then [a.firstName.value] else [])
    + (if Given(a.middleName) then [a.middleName.value] else [])
  }

  /** The full name is the space-join of the name parts that are present. */
  lemma FullNameIsJoinOfPresentParts(a: Author)
    ensures FullName(a) == Join(PresentParts(a))
  {
    var parts := PresentParts(a);
    if Given(a.firstName) && Given(a.middleName) {
      assert parts[..2] == [a.lastName, a.firstName.value];
      assert parts[..2][..1] == [a.lastName];
    } else if Given(a.firstName) || Given(a.middleName) {
      assert parts[..1] == [a.lastName];
    }
  }

  /** The three authors of the model test and the full names it expects. */
  lemma FullNameExamples()
    ensures FullName(Author(Some("Ivan"), Some("Ivanovich"), "Ivanov")) == "Ivanov Ivan Ivanovich"
    ensures FullName(Author(Some("Petr"), Some(""), "Petrov")) == "Petrov Petr"
    ensures FullName(Author(Some(""), Some(""), "Sidorov")) == "Sidorov"
  {
  }

  /** Null name parts are skipped like empty ones, also when only the middle name is given. */
  lemma FullNameNullParts()
    ensures FullName(Author(None, None, "Sidorov")) == "Sidorov"
    ensures FullName(Author(None, Some("Petrovich"), "Petrov")) == "Petrov Petrovich"
  {
  }

  /** `str(author)` is the author's full name. */
  function AuthorToString(a: Author): (s: string)
    ensures s == FullName(a)
  {
    FullName(a)
  }

  /** `str(tag)` is the tag's title, unchanged. */
  function TagToString(t: Tag): (s: string)
    ensures s == t.title
  {
    t.title
  }

  /** `str(publisher)` is the publisher's title, unchanged. */
  function PublisherToString(p: Publisher): (s: string)
    ensures s == p.title
  {
    p.title
  }

  /** `str(book)`: the title, then a comma and a space, then the author's string form. */
  function BookToString(b: Book, author: Author): (s: string)
    ensures |s| == |b.title| + 2 + |FullName(author)|
    ensures s[..|b.title|] == b.title
    ensures s[|b.title|..|b.title| + 2] == ", "
    ensures s[|b.title| + 2..] == AuthorToString(author)
  {
    b.title + ", " + AuthorToString(author)
  }

  /** How many characters of a note its string form keeps. */
  const NoteSummaryLength: nat := 64

  /** `str(note)`: the first 64 characters of the text, or all of it when it is shorter. */
  function NoteToString(n: Note): (s: string)
    ensures |s| == if |n.text| < NoteSummaryLength then |n.text| else NoteSummaryLength
    ensures s == n.text[..|s|]
  {
    if |n.text| <= NoteSummaryLength then n.text else n.text[..NoteSummaryLength]
  }
}
