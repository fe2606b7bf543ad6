// The shared repository of timestamp formatters, keyed by pattern.

module TimestampFormatting {
  import opened Wrappers

  /** A timestamp formatter; the one built without a pattern uses the formatter's own default. */
  class Formatter {
    const pattern: Option<string>

    constructor(pattern: Option<string>)
      ensures this.pattern == pattern
    {
      this.pattern := pattern;
    }
  }

  /** The objects a default formatter can be asked for. */
  datatype Argument = Timestamp(millis: int) | NotATimestamp | Null

  /** The key under which the formatter without a pattern is kept. */
  const DefaultKey: string := "ERXTimestampFormatter.DefaultKey"

  /** The pattern used for timestamps when no pattern is set. */
  const DefaultObjectPattern: string := "%Y/%m/%d"

  class Repository {
    var formatters: map<string, Formatter>

    /** The repository starts with the pattern-less formatter under the default key, and nothing else. */
    constructor()
      ensures formatters.Keys == {DefaultKey}
      ensures fresh(formatters[DefaultKey]) && formatters[DefaultKey].pattern.None?
    {
      var f := new Formatter(None);
      formatters := map[DefaultKey := f];
    }

    /** The shared formatter for a pattern, created and kept on first request. */
    method DateFormatterForPattern(pattern: string) returns (f: Formatter)
      modifies this
      ensures pattern in formatters && f == formatters[pattern]
      ensures pattern in old(formatters) ==> f == old(formatters)[pattern] && formatters == old(formatters)
      ensures pattern !in old(formatters) ==>
        fresh(f) && f.pattern == Some(pattern) && formatters == old(formatters)[pattern := f]
    {
      if pattern in formatters {
        f := formatters[pattern];
      } else {
        f := new Formatter(Some(pattern));
        formatters := formatters[pattern := f];
      }
    }

    /** Binds a pattern to a formatter, or unbinds it when the formatter is null. */
    method SetDateFormatterForPattern(formatter: Formatter?, pattern: string)
      modifies this
      ensures formatter == null ==> formatters == old(formatters) - {pattern}
      ensures formatter != null ==> formatters == old(formatters)[pattern := formatter]
    {
      if formatter == null {
        formatters := formatters - {pattern};
      } else {
        formatters := formatters[pattern := formatter];
      }
    }

    /** The formatter for an object with no pattern of its own: the shared "%Y/%m/%d" one for timestamps, null otherwise. */
    method DefaultDateFormatterForObject(value: Argument) returns (f: Formatter?)
      modifies this
      ensures !value.Timestamp? ==> f == null && formatters == old(formatters)
      ensures value.Timestamp? ==> f != null && DefaultObjectPattern in formatters && f == formatters[DefaultObjectPattern]
      ensures value.Timestamp? && DefaultObjectPattern in old(formatters) ==> formatters == old(formatters)
      ensures value.Timestamp? && DefaultObjectPattern !in old(formatters) ==>
        fresh(f) && formatters == old(formatters)[DefaultObjectPattern := f]
    {
      f := null;
      if value.Timestamp? {
        f := DateFormatterForPattern(DefaultObjectPattern);
      }
    }
  }
}
