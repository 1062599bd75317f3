/** The TOML value tree that the credential loader inspects. Parsing and printing
    TOML text are not modelled: a configuration file is represented by the tree
    its text parses to. */
module Toml {

  /** A TOML value, reduced to the distinctions the loader makes: a string,
      a table of named values, or anything else (integers, arrays, dates, ...). */
  datatype Value = Str(text: string) | Table(entries: map<string, Value>) | Other
}
