/** Concrete scenarios of the pipeline on small inputs, stated as lemmas: the scenarios the
    repository's unit tests describe, stated over the model. The inputs are
    written out in every statement so that the verifier can compute with
    them. */
module ParserExamples {
  import Text
  import opened Transformers
  import opened CsvParsing

  /** The case transformers on the values of the transformer unit tests. */
  lemma CaseExamples()
    ensures Apply(UpperCase, "hello") == "HELLO" && Apply(UpperCase, "World") == "WORLD"
    ensures Apply(LowerCase, "HELLO") == "hello" && Apply(LowerCase, "World") == "world"
  {
    assert Text.ToUpper("hello") == "HELLO";
    assert Text.ToUpper("World") == "WORLD";
    assert Text.ToLower("HELLO") == "hello";
    assert Text.ToLower("World") == "world";
  }

  /** A value made of text between whitespace padding strips to that text,
      when the text neither starts nor ends with whitespace. */
  lemma StripsTo(value: string, pre: string, mid: string, post: string)
    requires value == pre + mid + post
    requires Text.AllSpace(pre) && Text.AllSpace(post)
    requires mid == [] || (!Text.IsSpace(mid[0]) && !Text.IsSpace(mid[|mid| - 1]))
    ensures Apply(Strip, value) == mid
  {
    Text.StripPadded(pre, mid, post);
  }

  /** The strip transformer on the values of its unit test: blanks and a
      newline are cut off, and a blank value becomes empty. */
  lemma StripExamples()
    ensures Apply(Strip, "  hello  ") == "hello"
    ensures Apply(Strip, "world\n") == "world"
    ensures Apply(Strip, "  ") == ""
  {
    StripsTo("  hello  ", "  ", "hello", "  ");
    StripsTo("world\n", "", "world", "\n");
    Text.StripEmptyIff("  ");
  }

  lemma JohnInCapitals()
    ensures Apply(UpperCase, "John Doe") == "JOHN DOE"
  {
    assert Text.ToUpper("John Doe") == "JOHN DOE";
  }

  lemma JaneInCapitals()
    ensures Apply(UpperCase, "Jane Smith") == "JANE SMITH"
  {
    assert Text.ToUpper("Jane Smith") == "JANE SMITH";
  }

  /** A `name`/`age`/`email` row projected onto `name` and `email`, with
      `name` upper-cased. */
  lemma CapitalisedRow(name: string, age: string, email: string, capitalName: string)
    requires Apply(UpperCase, name) == capitalName
    ensures ProjectRow(map["name" := name, "age" := age, "email" := email],
                       ["name", "email"], map["name" := UpperCase])
            == map["name" := capitalName, "email" := email]
  {
  }

  /** A successful parse of two rows, given what each row projects to. */
  lemma TwoRowRun(configured: seq<string>, transformers: map<string, Transformer>, fieldnames: seq<string>,
                  row0: Row, row1: Row, out0: Row, out1: Row)
    requires forall c :: c in fieldnames ==> c in row0 && c in row1
    requires forall c :: c in EffectiveColumns(configured, fieldnames) ==> c in fieldnames
    requires ProjectRow(row0, EffectiveColumns(configured, fieldnames), transformers) == out0
    requires ProjectRow(row1, EffectiveColumns(configured, fieldnames), transformers) == out1
    ensures Process(configured, transformers, Some(fieldnames), [row0, row1])
            == Ok(EffectiveColumns(configured, fieldnames), [out0, out1])
  {
    var out := Process(configured, transformers, Some(fieldnames), [row0, row1]);
    assert out.rows[0] == out0 && out.rows[1] == out1;
  }

  /** Selecting `name` and `email` with `name` upper-cased: the names come out
      in capitals, the e-mail addresses unchanged, and `age` is dropped. */
  lemma UppercaseNameExample()
    ensures var rows := [map["name" := "John Doe", "age" := "30", "email" := "john@example.com"],
                         map["name" := "Jane Smith", "age" := "25", "email" := "jane@example.com"]];
      && RowsCover(["name", "age", "email"], rows)
      && Process(["name", "email"], map["name" := UpperCase], Some(["name", "age", "email"]), rows)
         == Ok(["name", "email"],
               [map["name" := "JOHN DOE", "email" := "john@example.com"],
                map["name" := "JANE SMITH", "email" := "jane@example.com"]])
  {
    JohnInCapitals();
    CapitalisedRow("John Doe", "30", "john@example.com", "JOHN DOE");
    JaneInCapitals();
    CapitalisedRow("Jane Smith", "25", "jane@example.com", "JANE SMITH");
    TwoRowRun(["name", "email"], map["name" := UpperCase], ["name", "age", "email"],
              map["name" := "John Doe", "age" := "30", "email" := "john@example.com"],
              map["name" := "Jane Smith", "age" := "25", "email" := "jane@example.com"],
              map["name" := "JOHN DOE", "email" := "john@example.com"],
              map["name" := "JANE SMITH", "email" := "jane@example.com"]);
  }

  /** Requesting a column the header does not have fails, naming exactly it. */
  lemma UnknownColumnExample()
    ensures var rows := [map["name" := "John Doe", "age" := "30", "email" := "john@example.com"]];
      && RowsCover(["name", "age", "email"], rows)
      && Process(["name", "nonexistent"], map[], Some(["name", "age", "email"]), rows)
         == MissingColumns({"nonexistent"})
  {
    var rows := [map["name" := "John Doe", "age" := "30", "email" := "john@example.com"]];
    var out := Process(["name", "nonexistent"], map[], Some(["name", "age", "email"]), rows);
    MissingColumnsExact(["name", "nonexistent"], map[], ["name", "age", "email"], rows, "nonexistent");
    assert out.missing == {"nonexistent"};
  }

  /** An empty input has no header and fails, whatever the configuration. */
  lemma EmptyInputExample(configured: seq<string>, transformers: map<string, Transformer>)
    ensures Process(configured, transformers, None, []) == NoHeader
  {
  }

  /** A `name`/`city` row whose values are text between whitespace padding,
      with both columns stripped. */
  lemma StrippedRow(name: string, namePre: string, strippedName: string, namePost: string,
                    city: string, cityPre: string, strippedCity: string, cityPost: string)
    requires name == namePre + strippedName + namePost && city == cityPre + strippedCity + cityPost
    requires Text.AllSpace(namePre) && Text.AllSpace(namePost)
    requires Text.AllSpace(cityPre) && Text.AllSpace(cityPost)
    requires strippedName == [] || (!Text.IsSpace(strippedName[0]) && !Text.IsSpace(strippedName[|strippedName| - 1]))
    requires strippedCity == [] || (!Text.IsSpace(strippedCity[0]) && !Text.IsSpace(strippedCity[|strippedCity| - 1]))
    ensures ProjectRow(map["name" := name, "city" := city],
                       ["name", "city"], map["name" := Strip, "city" := Strip])
            == map["name" := strippedName, "city" := strippedCity]
  {
    StripsTo(name, namePre, strippedName, namePost);
    StripsTo(city, cityPre, strippedCity, cityPost);
    ProjectStripped(name, city, strippedName, strippedCity);
  }

  lemma ProjectStripped(name: string, city: string, strippedName: string, strippedCity: string)
    requires Apply(Strip, name) == strippedName && Apply(Strip, city) == strippedCity
    ensures ProjectRow(map["name" := name, "city" := city],
                       ["name", "city"], map["name" := Strip, "city" := Strip])
            == map["name" := strippedName, "city" := strippedCity]
  {
  }

  /** Stripping both columns, with no column list configured, removes the
      blanks around every value and keeps the header as it is. */
  lemma StripBothColumnsExample()
    ensures var rows := [map["name" := "  John Doe  ", "city" := " New York "],
                         map["name" := " Jane Smith", "city" := "London  "]];
      && RowsCover(["name", "city"], rows)
      && Process([], map["name" := Strip, "city" := Strip], Some(["name", "city"]), rows)
         == Ok(["name", "city"],
               [map["name" := "John Doe", "city" := "New York"],
                map["name" := "Jane Smith", "city" := "London"]])
  {
    StrippedRow("  John Doe  ", "  ", "John Doe", "  ", " New York ", " ", "New York", " ");
    StrippedRow(" Jane Smith", " ", "Jane Smith", "", "London  ", "", "London", "  ");
    TwoRowRun([], map["name" := Strip, "city" := Strip], ["name", "city"],
              map["name" := "  John Doe  ", "city" := " New York "],
              map["name" := " Jane Smith", "city" := "London  "],
              map["name" := "John Doe", "city" := "New York"],
              map["name" := "Jane Smith", "city" := "London"]);
  }

  /** The builder calls chain: each hands back the parser it was called on,
      and the configuration they leave behind is the one they were given. */
  method ChainedConfiguration() returns (p: CsvParser, result: CsvParser)
    ensures result == p
    ensures p.columns == ["name"] && p.transformers == map["name" := UpperCase]
  {
    p := CreateParser();
    var q := p.SetColumns(["name"]);
    result := q.AddTransformer("name", UpperCase);
  }
}
