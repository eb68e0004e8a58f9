/** The fixed lookup tables of the site: goal tags and weekday tags with their display labels. */
module Catalog {

  /** The `goals` table: goal tag -> label. */
  const Goals: map<string, string> :=
    map["travel" := "Для путешествий", "study" := "Для учебы",
        "work" := "Для работы", "relocate" := "Для переезда"]

  /** The `days_of_week` table: weekday tag -> label. */
  const DaysOfWeek: map<string, string> :=
    map["mon" := "Понедельник", "tue" := "Вторник", "wed" := "Среда",
        "thu" := "Четверг", "fri" := "Пятница", "sat" := "Суббота",
        "sun" := "Воскресенье"]

  /** The seven weekday tags a booking may name. */
  const Weekdays: set<string> := DaysOfWeek.Keys
}
