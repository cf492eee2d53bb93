/** The domain records decoded from the feeds (data/Alert.kt and
    data/ShortForecast.kt), and the opaque timestamps they carry. */
module Records {
  import opened Results

  /** A `java.util.Date`: an instant, kept opaque. */
  datatype Date = Date(millis: int)

  /** `SimpleDateFormat.parse` for a fixed pattern; `None` stands for the
      `ParseException` it throws on text that does not match. */
  type DateParser = string -> Option<Date>

  /** `SimpleDateFormat.format` for a fixed pattern. */
  type DateFormatter = Date -> string

  /** One weather alert. */
  datatype Alert = Alert(description: string, issueTime: Date, endTime: Date, content: string)

  /** The short-range forecast: six lists, one entry per observation slot. */
  datatype ShortForecast = ShortForecast(
    timeList: seq<Date>,
    tList: seq<int>,
    wxList: seq<(string, string)>,
    atList: seq<int>,
    popList: seq<int>,
    rhList: seq<int>)

  /** The forecast the decoder starts from: every list empty. */
  const EmptyForecast := ShortForecast([], [], [], [], [], [])
}
