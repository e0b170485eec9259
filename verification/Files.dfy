/** A directory of append-only text files. */
module Files {
  import opened Texts

  datatype File = File(name: Text, content: Text)

  predicate Exists(files: seq<File>, name: Text) { exists f <- files :: f.name == name }

  /** The content of a file; empty where there is none. */
  function ContentOf(files: seq<File>, name: Text): Text {
    if files == [] then []
    else if files[0].name == name then files[0].content
    else ContentOf(files[1..], name)
  }

  /** `appendFileSync(name, text)`: a file that is not there is created. */
  function Append(files: seq<File>, name: Text, text: Text): seq<File> {
    if files == [] then [File(name, text)]
    else if files[0].name == name then [File(name, files[0].content + text)] + files[1..]
    else [files[0]] + Append(files[1..], name, text)
  }

  lemma {:induction false} AppendExists(files: seq<File>, name: Text, text: Text, x: Text)
    ensures Exists(Append(files, name, text), x) <==> Exists(files, x) || x == name
  {
    var after := Append(files, name, text);
    if files == [] {
      assert after[0].name == name;
    } else {
      assert files == [files[0]] + files[1..];
      if files[0].name == name {
        assert after == [File(name, files[0].content + text)] + files[1..];
        assert after[0].name == name && files[0].name == name;
      } else {
        AppendExists(files[1..], name, text, x);
        assert after == [files[0]] + Append(files[1..], name, text);
      }
    }
  }

  /** A file of the new directory was there before, is the new file, or is an old file with one more line. */
  lemma {:induction false} AppendMembers(files: seq<File>, name: Text, text: Text, g: File)
    requires g in Append(files, name, text)
    ensures
      || g in files
      || (!Exists(files, name) && g == File(name, text))
      || (Exists(files, name) && exists f <- files :: f.name == name && g == File(name, f.content + text))
  {
    if files != [] {
      var head := files[0];
      assert head in files;
      if head.name == name {
        assert g == File(name, head.content + text) || g in files[1..];
      } else if g != head {
        AppendMembers(files[1..], name, text, g);
        if f :| f in files[1..] && f.name == name && g == File(name, f.content + text) {
          assert f in files;
        }
      }
    }
  }

  /** Appending changes one file, by the text appended. */
  lemma {:induction false} AppendContent(files: seq<File>, name: Text, text: Text, x: Text)
    ensures ContentOf(Append(files, name, text), x) == ContentOf(files, x) + (if x == name then text else [])
  {
    if files != [] && files[0].name != name {
      AppendContent(files[1..], name, text, x);
    }
  }
}
