/** The two stored record shapes of the tracker (src/types.ts). */
module Entities {

  import opened Wrappers

  /** A medicine or supplement the user can record taking. */
  datatype MedicineItem = MedicineItem(id: string, name: string)

  /** One logged intake. `medicineName` is a copy taken when the intake is
      recorded; `timestamp` is milliseconds since the epoch; `details` is the
      optional dosage note. */
  datatype IntakeRecord = IntakeRecord(
    id: string,
    medicineId: string,
    medicineName: string,
    timestamp: int,
    details: Option<string>)

  function MedicineId(m: MedicineItem): string {
    m.id
  }

  function RecordId(r: IntakeRecord): string {
    r.id
  }
}
